/** Ear clipping of a polygonal face (graphics/src/tiny_obj_loader.h, exportGroupsToShape with triangulation). */
module EarClipping {
  import opened Chains
  import opened Sequences

  /** A corner of a face: indices into the position, texture coordinate and normal lists; negative if missing. */
  datatype Corner = Corner(v: int, vt: int, vn: int)

  /** The coordinate list and the two coordinates of the plane that is worked in. */
  datatype Plane = Plane(v: seq<real>, axis0: nat, axis1: nat)

  predicate InPlane(plane: Plane, c: Corner) {
    0 <= c.v && c.v * 3 + plane.axis0 < |plane.v| && c.v * 3 + plane.axis1 < |plane.v|
  }

  function X(plane: Plane, c: Corner): real {
    if InPlane(plane, c) then plane.v[c.v * 3 + plane.axis0] else 0.0
  }

  function Y(plane: Plane, c: Corner): real {
    if InPlane(plane, c) then plane.v[c.v * 3 + plane.axis1] else 0.0
  }

  // -------- polygons as chains --------

  ghost function Path<T>(poly: seq<T>): seq<Edge<T>> {
    if |poly| <= 1 then [] else Path(poly[..|poly|-1]) + [Edge(poly[|poly|-2], poly[|poly|-1])]
  }

  /** The directed edges around a polygon. */
  ghost function Boundary<T>(poly: seq<T>): seq<Edge<T>> {
    if poly == [] then [] else Path(poly) + [Edge(poly[|poly|-1], poly[0])]
  }

  ghost function PathNet<T>(p: seq<T>, e: Edge<T>): int {
    Net(Path(p), e)
  }

  lemma PathStep<T>(p: seq<T>, e: Edge<T>)
    requires 1 < |p|
    ensures PathNet(p, e) == PathNet(p[..|p|-1], e) + Arc(p[|p|-2], p[|p|-1], e)
  {
    NetAppend(Path(p[..|p|-1]), [Edge(p[|p|-2], p[|p|-1])], e);
    NetOne(p[|p|-2], p[|p|-1], e);
  }

  lemma PathOfOne<T>(p: seq<T>, e: Edge<T>)
    requires |p| == 1
    ensures PathNet(p, e) == 0
  {
  }

  lemma {:induction false} PathSplit<T>(p: seq<T>, q: seq<T>, e: Edge<T>)
    requires p != [] && q != []
    ensures PathNet(p + q, e) == PathNet(p, e) + Arc(p[|p|-1], q[0], e) + PathNet(q, e)
  {
    hide PathNet, Arc;
    PathStep(p + q, e);
    if |q| == 1 {
      assert (p + q)[..|p + q|-1] == p;
      PathOfOne(q, e);
    } else {
      assert (p + q)[..|p + q|-1] == p + q[..|q|-1];
      PathSplit(p, q[..|q|-1], e);
      PathStep(q, e);
    }
  }

  lemma NetOfBoundary<T>(poly: seq<T>, e: Edge<T>)
    requires poly != []
    ensures Net(Boundary(poly), e) == PathNet(poly, e) + Arc(poly[|poly|-1], poly[0], e)
  {
    NetAppend(Path(poly), [Edge(poly[|poly|-1], poly[0])], e);
    NetOne(poly[|poly|-1], poly[0], e);
  }

  lemma ClipEnd<T>(poly: seq<T>, rest: seq<T>, b: T, e: Edge<T>)
    requires rest != [] && (poly == rest + [b] || poly == [b] + rest)
    ensures Net(Boundary(poly), e) == Net(Boundary(rest), e) + Net(Triangle(rest[|rest|-1], b, rest[0]), e)
  {
    hide PathNet, Arc, Net, Boundary;
    NetOfTriangle(rest[|rest|-1], b, rest[0], e);
    NetOfBoundary(poly, e);
    NetOfBoundary(rest, e);
    PathOfOne([b], e);
    ArcFlip(rest[|rest|-1], rest[0], e);
    if poly == rest + [b] {
      PathSplit(rest, [b], e);
    } else {
      PathSplit([b], rest, e);
    }
  }

  lemma ClipMiddle<T>(p: seq<T>, b: T, q: seq<T>, e: Edge<T>)
    requires p != [] && q != []
    ensures Net(Boundary(p + ([b] + q)), e) == Net(Boundary(p + q), e) + Net(Triangle(p[|p|-1], b, q[0]), e)
  {
    hide PathNet, Arc, Net, Boundary;
    NetOfTriangle(p[|p|-1], b, q[0], e);
    NetOfBoundary(p + ([b] + q), e);
    NetOfBoundary(p + q, e);
    PathSplit(p, [b] + q, e);
    PathSplit([b], q, e);
    PathOfOne([b], e);
    PathSplit(p, q, e);
    ArcFlip(p[|p|-1], q[0], e);
  }

  function Wrap(i: nat, n: nat): nat {
    if i < n then i else i - n
  }

  lemma Wrapped(i: nat, n: nat)
    requires i < 2 * n
    ensures i % n == Wrap(i, n)
  {
    if n <= i {
      assert i == n * 1 + (i - n);
    }
  }

  /** Cutting off the corner after corner g takes one triangle off the boundary. */
  lemma ClipKeepsChain<T>(poly: seq<T>, g: nat, r: nat, t: nat, e: Edge<T>)
    requires 3 < |poly| && g < |poly| && r == Wrap(g + 1, |poly|) && t == Wrap(g + 2, |poly|)
    ensures Net(Boundary(poly), e) == Net(Boundary(Without(poly, r)), e) + Net(Triangle(poly[g], poly[r], poly[t]), e)
  {
    hide Net, Boundary, Triangle;
    var n := |poly|;
    var b, rest := poly[r], Without(poly, r);
    if r == 0 {
      assert poly == [b] + rest;
      assert rest[|rest|-1] == poly[g] && rest[0] == poly[t];
      ClipEnd(poly, rest, b, e);
    } else if r == n - 1 {
      assert poly == rest + [b];
      assert rest[|rest|-1] == poly[g] && rest[0] == poly[t];
      ClipEnd(poly, rest, b, e);
    } else {
      var p, q := poly[..r], poly[r+1..];
      assert p[|p|-1] == poly[g] && q[0] == poly[t];
      assert poly == p + ([b] + q);
      ClipMiddle(p, b, q, e);
    }
  }

  // -------- the ear test --------

  /** One edge of the point-in-triangle test: does a ray from the point cross it? */
  predicate Crosses(xi: real, yi: real, xj: real, yj: real, tx: real, ty: real) {
    (yi > ty) != (yj > ty) && tx < (xj - xi) * (ty - yi) / (yj - yi) + xi
  }

  /** Whether c lies in the triangle (a parity of crossings). */
  predicate Inside(plane: Plane, a: Corner, b: Corner, d: Corner, c: Corner) {
    var x0, y0, x1, y1 := X(plane, a), Y(plane, a), X(plane, b), Y(plane, b);
    var x2, y2, tx, ty := X(plane, d), Y(plane, d), X(plane, c), Y(plane, c);
    (Crosses(x0, y0, x2, y2, tx, ty) != Crosses(x1, y1, x0, y0, tx, ty)) != Crosses(x2, y2, x1, y1, tx, ty)
  }

  /** Twice the signed area of a triangle in the plane. */
  function CrossOf(plane: Plane, a: Corner, b: Corner, c: Corner): real {
    (X(plane, b) - X(plane, a)) * (Y(plane, c) - Y(plane, b)) - (Y(plane, b) - Y(plane, a)) * (X(plane, c) - X(plane, b))
  }

  predicate Overlaps(plane: Plane, a: Corner, b: Corner, c: Corner, poly: seq<Corner>, g: nat, k: nat)
    requires poly != []
  {
    var other := poly[(g + k) % |poly|];
    InPlane(plane, other) && Inside(plane, a, b, c, other)
  }

  /** Whether the corner after corner g is clipped: its angle turns the way the face does, and no other corner lies
      in its triangle. */
  predicate IsEar(plane: Plane, area: real, poly: seq<Corner>, g: nat)
    requires g < |poly|
  {
    var n := |poly|;
    var a, b, c := poly[g], poly[(g + 1) % n], poly[(g + 2) % n];
    && 0.0 <= CrossOf(plane, a, b, c) * area
    && forall k :: 3 <= k < n ==> !Overlaps(plane, a, b, c, poly, g, k)
  }

  // -------- the loop --------

  datatype Clipping = Clipping(poly: seq<Corner>, guess: nat, previous: nat, remaining: nat, out: seq<Corner>)

  predicate Going(s: Clipping) {
    3 < |s.poly| && 0 < s.remaining && s.guess <= |s.poly|
  }

  /** The corner that is tried next. */
  function Current(s: Clipping): (g: nat)
    requires Going(s)
    ensures g < |s.poly|
  {
    if |s.poly| <= s.guess then s.guess - |s.poly| else s.guess
  }

  /** How many attempts are left after it. */
  function Left(s: Clipping): nat
    requires Going(s)
  {
    if s.previous != |s.poly| then |s.poly| else s.remaining - 1
  }

  /** The state after the corner behind the current one is cut off. */
  function Clipped(s: Clipping): Clipping
    requires Going(s)
  {
    var n, g := |s.poly|, Current(s);
    var r := (g + 1) % n;
    Clipping(Without(s.poly, r), g, n, Left(s), s.out + [s.poly[g], s.poly[r], s.poly[(g + 2) % n]])
  }

  function MovedOn(s: Clipping): Clipping
    requires Going(s)
  {
    Clipping(s.poly, Current(s) + 1, |s.poly|, Left(s), s.out)
  }

  /** One pass through the loop. */
  function Attempt(plane: Plane, area: real, s: Clipping): Clipping
    requires Going(s)
  {
    if IsEar(plane, area, s.poly, Current(s)) then Clipped(s) else MovedOn(s)
  }

  function Clip(plane: Plane, area: real, s: Clipping): Clipping
    decreases |s.poly|, if s.previous == |s.poly| then 0 else 1, s.remaining
  {
    if Going(s) then Clip(plane, area, Attempt(plane, area, s)) else s
  }

  function StartOf(face: seq<Corner>): Clipping {
    Clipping(face, 0, |face|, |face|, [])
  }

  // -------- what every pass keeps --------

  /** The triangles emitted and the polygon that remains make up the face. */
  ghost predicate Conserved(face: seq<Corner>, s: Clipping) {
    && |s.out| % 3 == 0 && |s.out| == 3 * (|face| - |s.poly|)
    && 3 <= |s.poly| <= |face| && s.guess <= |s.poly|
    && SameChain(Boundary(face), TriangleEdges(s.out) + Boundary(s.poly))
  }

  lemma TriangleAppended<T>(out: seq<T>, a: T, b: T, c: T, e: Edge<T>)
    requires |out| % 3 == 0
    ensures Net(TriangleEdges(out + [a, b, c]), e) == Net(TriangleEdges(out), e) + Net(Triangle(a, b, c), e)
  {
    assert (out + [a, b, c])[..|out|] == out;
    NetAppend(TriangleEdges(out), Triangle(a, b, c), e);
  }

  lemma AttemptConserves(plane: Plane, area: real, face: seq<Corner>, s: Clipping)
    requires Conserved(face, s) && Going(s)
    ensures Conserved(face, Attempt(plane, area, s))
  {
    hide IsEar, SameChain, Without;
    if IsEar(plane, area, s.poly, Current(s)) {
      ClippedConserves(face, s);
    }
  }

  lemma ClippedConserves(face: seq<Corner>, s: Clipping)
    requires Going(s) && |s.out| % 3 == 0 && SameChain(Boundary(face), TriangleEdges(s.out) + Boundary(s.poly))
    ensures var after := Clipped(s);
      |after.out| % 3 == 0 && SameChain(Boundary(face), TriangleEdges(after.out) + Boundary(after.poly))
  {
    hide Net, Boundary, TriangleEdges, Without;
    var n, g := |s.poly|, Current(s);
    var r, t := (g + 1) % n, (g + 2) % n;
    var after := Clipped(s);
    Wrapped(g + 1, n);
    Wrapped(g + 2, n);
    forall e ensures Net(Boundary(face), e) == Net(TriangleEdges(after.out) + Boundary(after.poly), e) {
      assert Net(Boundary(face), e) == Net(TriangleEdges(s.out) + Boundary(s.poly), e);
      NetAppend(TriangleEdges(s.out), Boundary(s.poly), e);
      ClipKeepsChain(s.poly, g, r, t, e);
      TriangleAppended(s.out, s.poly[g], s.poly[r], s.poly[t], e);
      NetAppend(TriangleEdges(after.out), Boundary(after.poly), e);
    }
  }

  lemma {:induction false} ClipConserves(plane: Plane, area: real, face: seq<Corner>, s: Clipping)
    requires Conserved(face, s)
    ensures Conserved(face, Clip(plane, area, s)) && !Going(Clip(plane, area, s))
    decreases |s.poly|, if s.previous == |s.poly| then 0 else 1, s.remaining
  {
    hide Conserved, IsEar;
    if Going(s) {
      AttemptConserves(plane, area, face, s);
      ClipConserves(plane, area, face, Attempt(plane, area, s));
    }
  }

  lemma StartConserved(face: seq<Corner>)
    requires 3 <= |face|
    ensures Conserved(face, StartOf(face))
  {
    assert TriangleEdges<Corner>([]) + Boundary(face) == Boundary(face);
  }

  /** The triangles of a face: those that were clipped, and the last one if three corners are left. */
  function Triangulation(plane: Plane, area: real, face: seq<Corner>): seq<Corner> {
    var s := Clip(plane, area, StartOf(face));
    if |s.poly| == 3 then s.out + s.poly else s.out
  }

  /** What is left of the face if the loop gives up. */
  function LeftOver(plane: Plane, area: real, face: seq<Corner>): seq<Corner> {
    var s := Clip(plane, area, StartOf(face));
    if |s.poly| == 3 then [] else s.poly
  }

  lemma BoundaryOfThree<T>(a: T, b: T, c: T)
    ensures Boundary([a, b, c]) == Triangle(a, b, c)
  {
    assert [a, b, c][..2] == [a, b] && [a, b][..1] == [a];
    assert Path([a, b]) == Path([a]) + [Edge(a, b)];
    assert Path([a, b, c]) == [Edge(a, b)] + [Edge(b, c)];
  }

  lemma LastTriangle<T>(out: seq<T>, poly: seq<T>)
    requires |out| % 3 == 0 && |poly| == 3
    ensures TriangleEdges(out + poly) + Boundary<T>([]) == TriangleEdges(out) + Boundary(poly)
  {
    var a, b, c := poly[0], poly[1], poly[2];
    assert poly == [a, b, c];
    BoundaryOfThree(a, b, c);
    assert (out + [a, b, c])[..|out|] == out;
  }

  /** Clipping conserves the face: up to edges that cancel, the triangles and what is left over have its boundary.
      If nothing is left over there are n - 2 triangles, and otherwise one for each corner lost. */
  lemma TriangulationConserves(plane: Plane, area: real, face: seq<Corner>)
    requires 3 <= |face|
    ensures var out, rest := Triangulation(plane, area, face), LeftOver(plane, area, face);
      && |out| % 3 == 0
      && SameChain(Boundary(face), TriangleEdges(out) + Boundary(rest))
      && (rest == [] || 4 <= |rest| <= |face|)
      && |out| == 3 * (if rest == [] then |face| - 2 else |face| - |rest|)
  {
    hide Net, Clip, Boundary, TriangleEdges;
    StartConserved(face);
    ClipConserves(plane, area, face, StartOf(face));
    var s := Clip(plane, area, StartOf(face));
    if |s.poly| == 3 {
      LastTriangle(s.out, s.poly);
    }
  }

  // -------- areas --------

  /** The area under one edge; an edge with a corner that has no coordinates counts for nothing. */
  function EdgeArea(plane: Plane, e: Edge<Corner>): real {
    if InPlane(plane, e.from) && InPlane(plane, e.to) then
      (X(plane, e.from) * Y(plane, e.to) - Y(plane, e.from) * X(plane, e.to)) * 0.5
    else 0.0
  }

  ghost function AreaOf(plane: Plane): Edge<Corner> -> real {
    (e: Edge<Corner>) => EdgeArea(plane, e)
  }

  ghost function FaceArea(plane: Plane, face: seq<Corner>): real {
    EdgeSum(AreaOf(plane), Boundary(face))
  }

  lemma AreaIsAntisymmetric(plane: Plane)
    ensures Antisymmetric(AreaOf(plane))
  {
    forall e: Edge<Corner> ensures AreaOf(plane)(Flip(e)) == -AreaOf(plane)(e) {
      hide X, Y, InPlane;
      assert X(plane, e.to) * Y(plane, e.from) == Y(plane, e.from) * X(plane, e.to);
      assert Y(plane, e.to) * X(plane, e.from) == X(plane, e.from) * Y(plane, e.to);
    }
  }

  /** The signed area of a triangle with coordinates is half the cross product that the ear test takes. */
  lemma TriangleArea(plane: Plane, a: Corner, b: Corner, c: Corner)
    requires InPlane(plane, a) && InPlane(plane, b) && InPlane(plane, c)
    ensures EdgeSum(AreaOf(plane), Triangle(a, b, c)) == CrossOf(plane, a, b, c) * 0.5
  {
    EdgeSumTriangle(AreaOf(plane), a, b, c);
    CrossExpanded(X(plane, a), Y(plane, a), X(plane, b), Y(plane, b), X(plane, c), Y(plane, c));
    hide X, Y, InPlane, EdgeSum;
  }

  lemma CrossExpanded(x0: real, y0: real, x1: real, y1: real, x2: real, y2: real)
    ensures (x1 - x0) * (y2 - y1) - (y1 - y0) * (x2 - x1)
         == (x0 * y1 - y0 * x1) + (x1 * y2 - y1 * x2) + (x2 * y0 - y2 * x0)
  {
    assert (x1 - x0) * (y2 - y1) == x1 * y2 - x1 * y1 - x0 * y2 + x0 * y1;
    assert (y1 - y0) * (x2 - x1) == y1 * x2 - y1 * x1 - y0 * x2 + y0 * x1;
  }

  /** The signed areas of the triangles and of what is left over sum to the area of the face. */
  lemma AreasAddUp(plane: Plane, area: real, face: seq<Corner>)
    requires 3 <= |face|
    ensures var out, rest := Triangulation(plane, area, face), LeftOver(plane, area, face);
      && |out| % 3 == 0
      && EdgeSum(AreaOf(plane), Boundary(face))
         == EdgeSum(AreaOf(plane), TriangleEdges(out)) + EdgeSum(AreaOf(plane), Boundary(rest))
  {
    hide Triangulation, LeftOver, SameChain;
    var out, rest := Triangulation(plane, area, face), LeftOver(plane, area, face);
    TriangulationConserves(plane, area, face);
    AreaIsAntisymmetric(plane);
    SameChainSameSum(AreaOf(plane), Boundary(face), TriangleEdges(out) + Boundary(rest));
    EdgeSumAppend(AreaOf(plane), TriangleEdges(out), Boundary(rest));
  }

  /** Every triangle of a list turns the way the face does. */
  ghost predicate AllTurn(plane: Plane, area: real, out: seq<Corner>) {
    |out| % 3 == 0 &&
    forall k :: 0 <= k && 3 * k < |out| ==> 0.0 <= CrossOf(plane, out[3*k], out[3*k+1], out[3*k+2]) * area
  }

  lemma TurnAppended(plane: Plane, area: real, out: seq<Corner>, a: Corner, b: Corner, c: Corner)
    requires AllTurn(plane, area, out) && 0.0 <= CrossOf(plane, a, b, c) * area
    ensures AllTurn(plane, area, out + [a, b, c])
  {
    hide CrossOf;
    var more := out + [a, b, c];
    forall k | 0 <= k && 3 * k < |more| ensures 0.0 <= CrossOf(plane, more[3*k], more[3*k+1], more[3*k+2]) * area {
      if 3 * k == |out| {
        assert more[3*k] == a && more[3*k+1] == b && more[3*k+2] == c;
      } else {
        assert 3 * k + 2 < |out|;
      }
    }
  }

  lemma {:induction false} ClipTurns(plane: Plane, area: real, s: Clipping)
    requires AllTurn(plane, area, s.out)
    ensures AllTurn(plane, area, Clip(plane, area, s).out)
    decreases |s.poly|, if s.previous == |s.poly| then 0 else 1, s.remaining
  {
    hide AllTurn, CrossOf, Overlaps;
    if Going(s) {
      if IsEar(plane, area, s.poly, Current(s)) {
        var n, g := |s.poly|, Current(s);
        TurnAppended(plane, area, s.out, s.poly[g], s.poly[(g + 1) % n], s.poly[(g + 2) % n]);
      }
      hide IsEar;
      ClipTurns(plane, area, Attempt(plane, area, s));
    }
  }

  /** No triangle is flipped: each one that is clipped turns the way the face does. Only the last one, of three corners
      that are left, is not looked at. */
  lemma ClippedTrianglesTurn(plane: Plane, area: real, face: seq<Corner>)
    requires 3 <= |face|
    ensures var out, rest := Triangulation(plane, area, face), LeftOver(plane, area, face);
      |out| >= 3 * (if rest == [] then 1 else 0) &&
      AllTurn(plane, area, if rest == [] then out[..|out| - 3] else out)
  {
    ClipTurns(plane, area, StartOf(face));
    StartConserved(face);
    ClipConserves(plane, area, face, StartOf(face));
    hide Clip, AllTurn, Going;
    var s := Clip(plane, area, StartOf(face));
    assert |s.poly| == 3 ==> (s.out + s.poly)[..|s.out|] == s.out;
  }

  // -------- giving up --------

  /** How many attempts in a row have failed on the present polygon. */
  function Tried(s: Clipping): int {
    if s.previous != |s.poly| then 0
    else if s.out == [] then |s.poly| - s.remaining
    else |s.poly| - s.remaining + 1
  }

  /** The corner that was tried j attempts ago. */
  function Back(guess: nat, j: nat, n: nat): nat
    requires guess <= n && 1 <= j <= n
  {
    if j <= guess then guess - j else guess + n - j
  }

  ghost predicate OnlyLastIsEar(plane: Plane, area: real, face: seq<Corner>) {
    && face != [] && IsEar(plane, area, face, |face| - 1)
    && forall g :: 0 <= g < |face| - 1 ==> !IsEar(plane, area, face, g)
  }

  ghost predicate NoEar(plane: Plane, area: real, poly: seq<Corner>) {
    forall g :: 0 <= g < |poly| ==> !IsEar(plane, area, poly, g)
  }

  ghost predicate Tracked(plane: Plane, area: real, face: seq<Corner>, s: Clipping) {
    && 3 <= |s.poly| && s.guess <= |s.poly|
    && (s.out == [] ==> s.poly == face && s.previous == |s.poly| && s.guess == |s.poly| - s.remaining)
    && (s.previous == |s.poly| ==>
          && s.remaining <= |s.poly|
          && forall j :: 1 <= j <= Tried(s) && j <= |s.poly| ==> !IsEar(plane, area, s.poly, Back(s.guess, j, |s.poly|)))
    && (s.previous != |s.poly| && s.remaining == 0 ==>
          OnlyLastIsEar(plane, area, face) && s.poly == face[1..] && |s.out| == 3)
  }

  lemma FailedAttemptTracked(plane: Plane, area: real, face: seq<Corner>, s: Clipping)
    requires Going(s) && Tracked(plane, area, face, s)
    requires !IsEar(plane, area, s.poly, Current(s))
    ensures Tracked(plane, area, face, Attempt(plane, area, s))
  {
    hide IsEar, OnlyLastIsEar;
    var n, after := |s.poly|, Attempt(plane, area, s);
    forall j | 1 <= j <= Tried(after) && j <= n ensures !IsEar(plane, area, s.poly, Back(after.guess, j, n)) {
      if 1 < j {
        assert Back(after.guess, j, n) == Back(s.guess, j - 1, n);
      }
    }
  }

  lemma ClippedAttemptTracked(plane: Plane, area: real, face: seq<Corner>, s: Clipping)
    requires Going(s) && Tracked(plane, area, face, s)
    requires IsEar(plane, area, s.poly, Current(s))
    ensures Tracked(plane, area, face, Attempt(plane, area, s))
  {
    hide IsEar;
    var n, after := |s.poly|, Attempt(plane, area, s);
    var g := Current(s);
    Wrapped(g + 1, n);
    if after.remaining == 0 {
      LastAttempt(plane, area, face, s, g);
      assert after.poly == face[1..];
      hide OnlyLastIsEar;
    }
  }

  lemma LastAttempt(plane: Plane, area: real, face: seq<Corner>, s: Clipping, g: nat)
    requires Going(s) && Tracked(plane, area, face, s) && s.previous == |s.poly| && s.remaining == 1
    requires g == Current(s) && IsEar(plane, area, s.poly, g)
    ensures s.out == [] && g == |s.poly| - 1 && OnlyLastIsEar(plane, area, face)
  {
    hide IsEar;
    var n := |s.poly|;
    assert Back(s.guess, n, n) == g;
    assert s.out == [];
    forall k | 0 <= k < n - 1 ensures !IsEar(plane, area, face, k) {
      assert Back(s.guess, s.guess - k, n) == k;
    }
  }

  lemma {:induction false} ClipTracked(plane: Plane, area: real, face: seq<Corner>, s: Clipping)
    requires Tracked(plane, area, face, s)
    ensures Tracked(plane, area, face, Clip(plane, area, s)) && !Going(Clip(plane, area, s))
    decreases |s.poly|, if s.previous == |s.poly| then 0 else 1, s.remaining
  {
    hide IsEar, OnlyLastIsEar, Tried;
    if Going(s) {
      if IsEar(plane, area, s.poly, Current(s)) {
        ClippedAttemptTracked(plane, area, face, s);
      } else {
        FailedAttemptTracked(plane, area, face, s);
      }
      hide Tracked;
      ClipTracked(plane, area, face, Attempt(plane, area, s));
    }
  }

  /** The loop gives up on a polygon only if none of its corners is an ear, with one exception: if the only ear of the
      whole face is found at its last attempt, that one is clipped and the loop ends without another look. */
  lemma GivesUpWithoutEars(plane: Plane, area: real, face: seq<Corner>)
    requires 3 <= |face|
    ensures var rest := LeftOver(plane, area, face);
      rest == [] || NoEar(plane, area, rest) || (rest == face[1..] && OnlyLastIsEar(plane, area, face))
  {
    hide IsEar, Clip, OnlyLastIsEar;
    var s := Clip(plane, area, StartOf(face));
    ClipTracked(plane, area, face, StartOf(face));
    if 3 < |s.poly| && s.previous == |s.poly| {
      var n := |s.poly|;
      forall g | 0 <= g < n ensures !IsEar(plane, area, s.poly, g) {
        var j := if g < s.guess then s.guess - g else s.guess + n - g;
        assert Back(s.guess, j, n) == g;
      }
    }
  }

  /** The state after k failed attempts on the face itself. */
  function Failed(face: seq<Corner>, k: nat): Clipping
    requires k <= |face|
  {
    Clipping(face, k, |face|, |face| - k, [])
  }

  lemma {:induction false} FailsUpTo(plane: Plane, area: real, face: seq<Corner>, k: nat)
    requires 4 <= |face| && k < |face| && forall g :: 0 <= g < k ==> !IsEar(plane, area, face, g)
    ensures Clip(plane, area, StartOf(face)) == Clip(plane, area, Failed(face, k))
  {
    hide IsEar;
    if k > 0 {
      FailsUpTo(plane, area, face, k - 1);
      AttemptIs(plane, area, Failed(face, k - 1), false);
      hide Attempt;
      assert MovedOn(Failed(face, k - 1)) == Failed(face, k);
    }
  }

  /** If the only ear of a face is the one tried last, it is clipped, and then the loop ends. */
  lemma OnlyLastEndsTheLoop(plane: Plane, area: real, face: seq<Corner>)
    requires 5 <= |face| && OnlyLastIsEar(plane, area, face)
    ensures LeftOver(plane, area, face) == face[1..]
  {
    hide IsEar;
    var n := |face|;
    FailsUpTo(plane, area, face, n - 1);
    var s := Failed(face, n - 1);
    AttemptIs(plane, area, s, true);
    Wrapped(n, n);
    hide Attempt;
    assert Clipped(s).poly == face[1..];
    assert !Going(Clipped(s));
  }

  /** The loop leaves a polygon that has an ear exactly when the only ear of the face is the one that is tried last, the
      face has at least five corners, and there is an ear once that one is clipped. */
  lemma GivesUpOnEarExactly(plane: Plane, area: real, face: seq<Corner>)
    requires 3 <= |face|
    ensures var rest := LeftOver(plane, area, face);
      rest != [] && !NoEar(plane, area, rest) <==>
      5 <= |face| && OnlyLastIsEar(plane, area, face) && !NoEar(plane, area, face[1..])
  {
    hide IsEar, OnlyLastIsEar;
    GivesUpWithoutEars(plane, area, face);
    LeftOverSize(plane, area, face);
    hide NoEar, LeftOver;
    if 5 <= |face| && OnlyLastIsEar(plane, area, face) {
      OnlyLastEndsTheLoop(plane, area, face);
    }
  }

  lemma LeftOverSize(plane: Plane, area: real, face: seq<Corner>)
    requires 3 <= |face|
    ensures LeftOver(plane, area, face) == [] || 4 <= |LeftOver(plane, area, face)|
  {
    StartConserved(face);
    ClipConserves(plane, area, face, StartOf(face));
  }

  // A face on which that happens.

  function PentagonPlane(): Plane {
    Plane([3.0, 2.0, 0.0, 2.0, 2.0, 0.0, 1.0, 3.0, 0.0, 2.0, 3.0, 0.0, 2.0, 0.0, 0.0], 0, 1)
  }

  function At(k: nat): Corner {
    Corner(k, -1, -1)
  }

  function Pentagon(): seq<Corner> {
    [At(0), At(1), At(2), At(3), At(4)]
  }

  lemma PentagonPoints()
    ensures var p := PentagonPlane();
      && InPlane(p, At(0)) && InPlane(p, At(1)) && InPlane(p, At(2)) && InPlane(p, At(3)) && InPlane(p, At(4))
      && X(p, At(0)) == 3.0 && Y(p, At(0)) == 2.0 && X(p, At(1)) == 2.0 && Y(p, At(1)) == 2.0
      && X(p, At(2)) == 1.0 && Y(p, At(2)) == 3.0 && X(p, At(3)) == 2.0 && Y(p, At(3)) == 3.0
      && X(p, At(4)) == 2.0 && Y(p, At(4)) == 0.0
  {
  }

  lemma PentagonArea()
    ensures FaceArea(PentagonPlane(), Pentagon()) == 0.5
  {
    PentagonPoints();
    hide X, Y, InPlane;
    var f, b := AreaOf(PentagonPlane()), Boundary(Pentagon());
    var c := Pentagon();
    assert c[..4][..3] == c[..3] && c[..3][..2] == c[..2] && c[..2][..1] == c[..1];
    assert Path(c) == [Edge(At(0), At(1)), Edge(At(1), At(2)), Edge(At(2), At(3)), Edge(At(3), At(4))] by {
      assert Path(c[..2]) == [Edge(At(0), At(1))];
      assert Path(c[..3]) == [Edge(At(0), At(1)), Edge(At(1), At(2))];
      assert Path(c[..4]) == [Edge(At(0), At(1)), Edge(At(1), At(2)), Edge(At(2), At(3))];
    }
  }

  lemma PentagonEars()
    ensures OnlyLastIsEar(PentagonPlane(), 0.5, Pentagon())
    ensures IsEar(PentagonPlane(), 0.5, Pentagon()[1..], 3)
  {
    PentagonPoints();
    hide X, Y, InPlane;
    var p, c, rest := PentagonPlane(), Pentagon(), Pentagon()[1..];
    assert CrossOf(p, c[0], c[1], c[2]) == -1.0 && CrossOf(p, c[1], c[2], c[3]) == -1.0;
    assert CrossOf(p, c[2], c[3], c[4]) == -3.0;
    assert !IsEar(p, 0.5, c, 0) && !IsEar(p, 0.5, c, 1) && !IsEar(p, 0.5, c, 2);
    assert Overlaps(p, c[3], c[4], c[0], c, 3, 3);
    assert !IsEar(p, 0.5, c, 3);
    assert CrossOf(p, c[4], c[0], c[1]) == 2.0;
    assert !Overlaps(p, c[4], c[0], c[1], c, 4, 3) && !Overlaps(p, c[4], c[0], c[1], c, 4, 4);
    assert CrossOf(p, rest[3], rest[0], rest[1]) == 2.0;
    assert !Overlaps(p, rest[3], rest[0], rest[1], rest, 3, 3);
  }

  /** On this face the loop ends with four corners left, one of them an ear. */
  lemma PentagonIsLeftOver()
    ensures LeftOver(PentagonPlane(), FaceArea(PentagonPlane(), Pentagon()), Pentagon()) == Pentagon()[1..]
    ensures !NoEar(PentagonPlane(), FaceArea(PentagonPlane(), Pentagon()), Pentagon()[1..])
  {
    PentagonArea();
    PentagonEars();
    hide IsEar, PentagonPlane, FaceArea, LeftOver;
    OnlyLastEndsTheLoop(PentagonPlane(), 0.5, Pentagon());
  }

  // -------- the code --------

  lemma AreaStep(plane: Plane, face: seq<Corner>, k: nat)
    requires k < |face|
    ensures k + 1 < |face| ==>
      EdgeSum(AreaOf(plane), Path(face[..k+2])) ==
      EdgeSum(AreaOf(plane), Path(face[..k+1])) + EdgeArea(plane, Edge(face[k], face[k+1]))
    ensures k + 1 == |face| ==>
      FaceArea(plane, face) == EdgeSum(AreaOf(plane), Path(face[..k+1])) + EdgeArea(plane, Edge(face[k], face[0]))
  {
    var last := [Edge(face[k], if k + 1 < |face| then face[k+1] else face[0])];
    EdgeSumAppend(AreaOf(plane), Path(face[..k+1]), last);
    assert EdgeSum(AreaOf(plane), last) == AreaOf(plane)(last[0]) by { assert last[1..] == []; }
    if k + 1 < |face| {
      assert face[..k+2][..k+1] == face[..k+1];
    } else {
      assert face[..k+1] == face;
    }
  }

  method ComputeArea(plane: Plane, face: seq<Corner>) returns (area: real)
    requires face != []
    ensures area == FaceArea(plane, face)
  {
    hide EdgeArea;
    area := 0.0;
    var n := |face|;
    for k := 0 to n
      invariant area == if k < n then EdgeSum(AreaOf(plane), Path(face[..k+1])) else FaceArea(plane, face)
    {
      Wrapped(k + 1, n);
      AreaStep(plane, face, k);
      var i0, i1 := face[k], face[(k + 1) % n];
      area := area + EdgeArea(plane, Edge(i0, i1));
    }
  }

  method TestEar(plane: Plane, area: real, polygon: array<Corner>, n: nat, g: nat) returns (ear: bool)
    requires 3 < n <= polygon.Length && g < n
    ensures ear == IsEar(plane, area, polygon[..n], g)
  {
    hide CrossOf, Inside, InPlane;
    var a, b, c := polygon[g], polygon[(g + 1) % n], polygon[(g + 2) % n];
    if CrossOf(plane, a, b, c) * area < 0.0 {
      return false;
    }
    ghost var poly := polygon[..n];
    for otherVert := 3 to n
      invariant forall k :: 3 <= k < otherVert ==> !Overlaps(plane, a, b, c, poly, g, k)
    {
      var idx := (g + otherVert) % n;
      assert poly[idx] == polygon[idx];
      if InPlane(plane, polygon[idx]) {
        if Inside(plane, a, b, c, polygon[idx]) {
          assert Overlaps(plane, a, b, c, poly, g, otherVert);
          return false;
        }
      }
    }
    return true;
  }

  /** Removes entry r of the first n by moving the later ones down. */
  method RemoveAt(polygon: array<Corner>, n: nat, r: nat)
    requires r < n <= polygon.Length
    modifies polygon
    ensures polygon[..n-1] == Without(old(polygon[..n]), r)
  {
    var removed := r;
    while removed + 1 < n
      invariant r <= removed < n
      invariant forall k :: 0 <= k < removed ==> polygon[k] == if k < r then old(polygon[k]) else old(polygon[k+1])
      invariant forall k :: removed < k < n ==> polygon[k] == old(polygon[k])
    {
      polygon[removed] := polygon[removed + 1];
      removed := removed + 1;
    }
  }

  /** The body of the loop. The counters and the polygon are updated in place. */
  method Pass(plane: Plane, area: real, polygon: array<Corner>, n: nat, guess0: nat, previous0: nat, remaining0: nat,
              ghost out: seq<Corner>)
    returns (size: nat, guess: nat, previous: nat, remaining: nat, emitted: seq<Corner>)
    requires 3 < n <= polygon.Length && guess0 <= n && 0 < remaining0
    modifies polygon
    ensures size <= polygon.Length && |emitted| == 3 * (n - size)
    ensures Clipping(polygon[..size], guess, previous, remaining, out + emitted)
         == Attempt(plane, area, old(Clipping(polygon[..n], guess0, previous0, remaining0, out)))
  {
    hide IsEar, Without, Attempt;
    ghost var before := Clipping(polygon[..n], guess0, previous0, remaining0, out);
    guess, previous, remaining, size, emitted := guess0, previous0, remaining0, n, [];
    if guess >= n {
      guess := guess - n;
    }
    if previous != n {
      previous := n;
      remaining := n;
    } else {
      remaining := remaining - 1;
    }
    assert guess == Current(before) && remaining == Left(before);
    var ear := TestEar(plane, area, polygon, n, guess);
    AttemptIs(plane, area, before, ear);
    if ear {
      var first, second, third := guess, (guess + 1) % n, (guess + 2) % n;
      emitted := [polygon[first], polygon[second], polygon[third]];
      RemoveAt(polygon, n, second);
      size := size - 1;
    } else {
      guess := guess + 1;
      assert out + emitted == out;
    }
  }

  lemma AttemptIs(plane: Plane, area: real, s: Clipping, ear: bool)
    requires Going(s) && ear == IsEar(plane, area, s.poly, Current(s))
    ensures Attempt(plane, area, s) == if ear then Clipped(s) else MovedOn(s)
  {
  }

  method Triangulate(plane: Plane, face: seq<Corner>) returns (indices: seq<Corner>, numFaceVertices: seq<nat>)
    requires 3 <= |face|
    ensures indices == Triangulation(plane, FaceArea(plane, face), face)
    ensures 3 * |numFaceVertices| == |indices| && forall k :: 0 <= k < |numFaceVertices| ==> numFaceVertices[k] == 3
  {
    hide FaceArea, IsEar, Attempt, Leads;
    var area := ComputeArea(plane, face);
    var polygon := new Corner[|face|](k requires 0 <= k < |face| => face[k]);
    assert polygon[..|face|] == face;
    var size: nat, guess: nat, previous: nat, remaining: nat := |face|, 0, |face|, |face|;
    indices, numFaceVertices := [], [];
    StartLeads(plane, area, face);
    while 3 < size && 0 < remaining
      invariant 3 <= size <= polygon.Length && guess <= size
      invariant Leads(plane, area, face, Clipping(polygon[..size], guess, previous, remaining, indices))
      invariant 3 * |numFaceVertices| == |indices| && forall k :: 0 <= k < |numFaceVertices| ==> numFaceVertices[k] == 3
      decreases size, if previous == size then 0 else 1, remaining
    {
      ghost var before := Clipping(polygon[..size], guess, previous, remaining, indices);
      assert Going(before);
      var n, emitted := size, [];
      size, guess, previous, remaining, emitted := Pass(plane, area, polygon, n, guess, previous, remaining, indices);
      AttemptShrinks(plane, area, before);
      AttemptLeads(plane, area, face, before);
      indices := indices + emitted;
      if size < n {
        numFaceVertices := numFaceVertices + [3];
      }
    }
    LeadsToEnd(plane, area, face, Clipping(polygon[..size], guess, previous, remaining, indices));
    if size == 3 {
      assert [polygon[0], polygon[1], polygon[2]] == polygon[..3];
      indices := indices + [polygon[0], polygon[1], polygon[2]];
      numFaceVertices := numFaceVertices + [3];
    }
  }

  /** From this state on the loop ends as it does from the start. */
  ghost predicate Leads(plane: Plane, area: real, face: seq<Corner>, s: Clipping) {
    Clip(plane, area, s) == Clip(plane, area, StartOf(face))
  }

  lemma StartLeads(plane: Plane, area: real, face: seq<Corner>)
    ensures Leads(plane, area, face, StartOf(face))
  {
  }

  lemma AttemptLeads(plane: Plane, area: real, face: seq<Corner>, s: Clipping)
    requires Going(s) && Leads(plane, area, face, s)
    ensures Leads(plane, area, face, Attempt(plane, area, s))
  {
    hide Attempt;
  }

  lemma LeadsToEnd(plane: Plane, area: real, face: seq<Corner>, s: Clipping)
    requires Leads(plane, area, face, s) && !Going(s)
    ensures Triangulation(plane, area, face) == if |s.poly| == 3 then s.out + s.poly else s.out
  {
    hide Attempt;
  }

  lemma AttemptShrinks(plane: Plane, area: real, s: Clipping)
    requires Going(s)
    ensures var t := Attempt(plane, area, s);
      && (|t.poly| == |s.poly| || |t.poly| == |s.poly| - 1) && t.guess <= |t.poly|
      && (|t.poly| == |s.poly| ==> t.previous == |s.poly| && (s.previous != |s.poly| || t.remaining < s.remaining))
  {
    hide IsEar;
  }
}
