/** The choice of the plane in which a face is clipped (graphics/src/tiny_obj_loader.h, exportGroupsToShape). */
module FacePlanes {
  import opened Chains
  import opened EarClipping
  import opened Sequences
  import opened Vectors

  predicate HasPoint(v: seq<real>, c: Corner) {
    0 <= c.v && 3 * c.v + 2 < |v|
  }

  function PointOf(v: seq<real>, c: Corner): Vec
    requires HasPoint(v, c)
  {
    Vec(v[c.v * 3 + 0], v[c.v * 3 + 1], v[c.v * 3 + 2])
  }

  /** The normal of a corner, as long as twice the area of the triangle that it spans with its neighbours. */
  function NormalOf(a: Vec, b: Vec, c: Vec): Vec {
    b.Minus(a).Cross(c.Minus(b))
  }

  predicate Exceeds(eps: real, n: Vec) {
    Abs(n.x) > eps || Abs(n.y) > eps || Abs(n.z) > eps
  }

  /** The two axes that are kept for a normal. */
  function AxesFor(n: Vec): (nat, nat) {
    if Abs(n.x) > Abs(n.y) && Abs(n.x) > Abs(n.z) then (1, 2)
    else if Abs(n.z) > Abs(n.x) && Abs(n.z) > Abs(n.y) then (0, 1)
    else (0, 2)
  }

  function Next<T>(face: seq<T>, k: nat, i: nat): T
    requires face != []
  {
    face[(k + i) % |face|]
  }

  predicate Decides(eps: real, v: seq<real>, face: seq<Corner>, k: nat)
    requires face != []
  {
    var a, b, c := Next(face, k, 0), Next(face, k, 1), Next(face, k, 2);
    HasPoint(v, a) && HasPoint(v, b) && HasPoint(v, c)
    && Exceeds(eps, NormalOf(PointOf(v, a), PointOf(v, b), PointOf(v, c)))
  }

  /** The first corner from k on whose normal is not negligible decides on the axes. */
  function AxesFrom(eps: real, v: seq<real>, face: seq<Corner>, k: nat): (nat, nat)
    requires face != [] && k <= |face|
    decreases |face| - k
  {
    if k == |face| then (1, 2)
    else if Decides(eps, v, face, k) then
      AxesFor(NormalOf(PointOf(v, Next(face, k, 0)), PointOf(v, Next(face, k, 1)), PointOf(v, Next(face, k, 2))))
    else AxesFrom(eps, v, face, k + 1)
  }

  function PlaneFor(eps: real, v: seq<real>, face: seq<Corner>): Plane
    requires face != []
  {
    var axes := AxesFrom(eps, v, face, 0);
    Plane(v, axes.0, axes.1)
  }

  /** No corner before k has a normal that exceeds epsilon. */
  ghost predicate NoneDecides(eps: real, v: seq<real>, face: seq<Corner>, k: nat)
    requires face != []
  {
    forall j :: 0 <= j < k ==> !Decides(eps, v, face, j)
  }

  lemma {:induction false} AxesFromFirst(eps: real, v: seq<real>, face: seq<Corner>, j: nat, k: nat)
    requires face != [] && j <= k <= |face| && NoneDecides(eps, v, face, k)
    ensures AxesFrom(eps, v, face, j) == AxesFrom(eps, v, face, k)
    decreases k - j
  {
    if j < k {
      AxesFromFirst(eps, v, face, j + 1, k);
    }
  }

  /** The first corner with a normal that exceeds epsilon decides, and without one the face is clipped in Y and Z. */
  lemma FirstDecides(eps: real, v: seq<real>, face: seq<Corner>, k: nat)
    requires face != [] && k <= |face| && NoneDecides(eps, v, face, k)
    ensures
      var a, b, c := Next(face, k, 0), Next(face, k, 1), Next(face, k, 2);
      && (k == |face| ==> PlaneFor(eps, v, face) == Plane(v, 1, 2))
      && (k < |face| && HasPoint(v, a) && HasPoint(v, b) && HasPoint(v, c) ==>
            var n := NormalOf(PointOf(v, a), PointOf(v, b), PointOf(v, c));
            var axes := AxesFor(n);
            Exceeds(eps, n) ==> PlaneFor(eps, v, face) == Plane(v, axes.0, axes.1))
  {
    hide NormalOf, AxesFor, Exceeds;
    AxesFromFirst(eps, v, face, 0, k);
  }

  method ChooseAxes(eps: real, v: seq<real>, face: seq<Corner>) returns (axis0: nat, axis1: nat)
    requires face != []
    ensures Plane(v, axis0, axis1) == PlaneFor(eps, v, face)
  {
    axis0, axis1 := 1, 2;
    var k := 0;
    while k < |face|
      invariant k <= |face| && axis0 == 1 && axis1 == 2 && AxesFrom(eps, v, face, 0) == AxesFrom(eps, v, face, k)
    {
      var i0, i1, i2 := face[(k + 0) % |face|], face[(k + 1) % |face|], face[(k + 2) % |face|];
      if HasPoint(v, i0) && HasPoint(v, i1) && HasPoint(v, i2) {
        var n := NormalOf(PointOf(v, i0), PointOf(v, i1), PointOf(v, i2));
        var cx, cy, cz := Abs(n.x), Abs(n.y), Abs(n.z);
        if cx > eps || cy > eps || cz > eps {
          if cx > cy && cx > cz {
          } else {
            axis0 := 0;
            if cz > cx && cz > cy {
              axis1 := 1;
            }
          }
          return;
        }
      }
      k := k + 1;
    }
  }

  /** One face, with the plane it chooses. */
  method TriangulateFace(eps: real, v: seq<real>, face: seq<Corner>) returns (indices: seq<Corner>, numFaceVertices: seq<nat>)
    requires 3 <= |face|
    ensures var plane := PlaneFor(eps, v, face); indices == Triangulation(plane, FaceArea(plane, face), face)
    ensures 3 * |numFaceVertices| == |indices| && forall k :: 0 <= k < |numFaceVertices| ==> numFaceVertices[k] == 3
  {
    var axis0, axis1 := ChooseAxes(eps, v, face);
    indices, numFaceVertices := Triangulate(Plane(v, axis0, axis1), face);
  }

  lemma Coordinates(v: seq<real>, c: Corner)
    requires HasPoint(v, c)
    ensures
      var p := PointOf(v, c);
      && X(Plane(v, 1, 2), c) == p.y && Y(Plane(v, 1, 2), c) == p.z
      && X(Plane(v, 0, 1), c) == p.x && Y(Plane(v, 0, 1), c) == p.y
      && X(Plane(v, 0, 2), c) == p.x && Y(Plane(v, 0, 2), c) == p.z
  {
  }

  /** In the plane that is chosen for a corner, its cross product is one component of its normal. */
  lemma CrossIsComponent(v: seq<real>, a: Corner, b: Corner, c: Corner)
    requires HasPoint(v, a) && HasPoint(v, b) && HasPoint(v, c)
    ensures
      var n := NormalOf(PointOf(v, a), PointOf(v, b), PointOf(v, c));
      && CrossOf(Plane(v, 1, 2), a, b, c) == n.x
      && CrossOf(Plane(v, 0, 1), a, b, c) == n.z
      && CrossOf(Plane(v, 0, 2), a, b, c) == -n.y
  {
    Coordinates(v, a);
    Coordinates(v, b);
    Coordinates(v, c);
    hide X, Y, PointOf;
  }

  /**
    * The projection keeps the corner as large as it can, unless the x and z components tie in front of the y component;
    * in the tie it keeps the y component, and so it collapses the corner exactly when that is zero.
    */
  lemma ProjectionKeepsCorner(v: seq<real>, eps: real, a: Corner, b: Corner, c: Corner)
    requires HasPoint(v, a) && HasPoint(v, b) && HasPoint(v, c) && 0.0 <= eps
    requires Exceeds(eps, NormalOf(PointOf(v, a), PointOf(v, b), PointOf(v, c)))
    ensures
      var n := NormalOf(PointOf(v, a), PointOf(v, b), PointOf(v, c));
      var axes := AxesFor(n);
      var cross := CrossOf(Plane(v, axes.0, axes.1), a, b, c);
      && (Abs(n.x) <= Abs(cross) && Abs(n.y) <= Abs(cross) && Abs(n.z) <= Abs(cross) <==>
            !(Abs(n.x) == Abs(n.z) && Abs(n.y) < Abs(n.x)))
      && (cross == 0.0 <==> Abs(n.x) == Abs(n.z) && n.y == 0.0)
  {
    CrossIsComponent(v, a, b, c);
    hide CrossOf, NormalOf, PointOf;
  }

  // -------- faces on a plane x + z == c or x - z == c --------

  function Along(plus: bool, x: real, z: real): real {
    if plus then x + z else x - z
  }

  /** Every corner has a point, and all points have the same sum, or the same difference, of x and z. */
  predicate Slanted(v: seq<real>, face: seq<Corner>, c: real, plus: bool) {
    forall k :: 0 <= k < |face| ==> HasPoint(v, face[k]) && Along(plus, PointOf(v, face[k]).x, PointOf(v, face[k]).z) == c
  }

  lemma SlantedNormal(p: Vec, q: Vec, r: Vec, plus: bool)
    requires Along(plus, p.x, p.z) == Along(plus, q.x, q.z) == Along(plus, r.x, r.z)
    ensures NormalOf(p, q, r).y == 0.0 && Abs(NormalOf(p, q, r).x) == Abs(NormalOf(p, q, r).z)
  {
    var a, b := q.Minus(p), r.Minus(q);
    if plus {
      assert a.z == -a.x && b.z == -b.x;
    } else {
      assert a.z == a.x && b.z == b.x;
    }
  }

  lemma SlantedDecides(eps: real, v: seq<real>, face: seq<Corner>, c: real, plus: bool, k: nat)
    requires k < |face| && Slanted(v, face, c, plus)
    ensures AxesFrom(eps, v, face, k) == if Decides(eps, v, face, k) then (0, 2) else AxesFrom(eps, v, face, k + 1)
  {
    SlantedNormal(PointOf(v, Next(face, k, 0)), PointOf(v, Next(face, k, 1)), PointOf(v, Next(face, k, 2)), plus);
    hide NormalOf, PointOf, HasPoint;
  }

  lemma {:induction false} SlantedAxes(eps: real, v: seq<real>, face: seq<Corner>, c: real, plus: bool, k: nat)
    requires face != [] && k <= |face| && Slanted(v, face, c, plus)
    ensures AxesFrom(eps, v, face, k) == if forall j :: k <= j < |face| ==> !Decides(eps, v, face, j) then (1, 2) else (0, 2)
    decreases |face| - k
  {
    if k < |face| {
      hide AxesFrom, Decides, Slanted;
      SlantedDecides(eps, v, face, c, plus, k);
      SlantedAxes(eps, v, face, c, plus, k + 1);
    }
  }

  /** The fan of a polygon from its first corner. */
  function Fan<T>(face: seq<T>): seq<T> {
    var n := |face|;
    if n < 3 then [] else Fan(face[..n - 1]) + [face[0], face[n - 2], face[n - 1]]
  }

  lemma OnTheLine(xi: real, yi: real, xj: real, yj: real, tx: real, ty: real, c: real, plus: bool)
    requires Along(plus, xi, yi) == Along(plus, xj, yj) == Along(plus, tx, ty) == c
    ensures !Crosses(xi, yi, xj, yj, tx, ty)
  {
    if yi != yj {
      var d, s := yj - yi, if plus then yi - ty else ty - yi;
      assert (xj - xi) * (ty - yi) == d * s;
      QuotientIs(d, s);
    }
  }

  lemma QuotientIs(d: real, q: real)
    requires d != 0.0
    ensures d * q / d == q
  {
  }

  /** Seen along y, the corners of a slanted face lie on a line. */
  lemma SlantedPoints(v: seq<real>, a: Corner, c: real, plus: bool)
    requires Slanted(v, [a], c, plus)
    ensures var plane := Plane(v, 0, 2); InPlane(plane, a) && Along(plus, X(plane, a), Y(plane, a)) == c
  {
    assert [a][0] == a;
  }

  lemma SlantedIsEar(v: seq<real>, area: real, poly: seq<Corner>, c: real, plus: bool)
    requires poly != [] && Slanted(v, poly, c, plus)
    ensures IsEar(Plane(v, 0, 2), area, poly, 0)
  {
    var plane, n := Plane(v, 0, 2), |poly|;
    forall k | 0 <= k < n ensures Along(plus, X(plane, poly[k]), Y(plane, poly[k])) == c {
      assert Slanted(v, [poly[k]], c, plus);
      SlantedPoints(v, poly[k], c, plus);
    }
    var p, q, r := poly[0], poly[1 % n], poly[2 % n];
    CrossOnTheLine(plane, p, q, r, c, plus);
    hide X, Y, CrossOf, Slanted, Along;
    forall k | 3 <= k < n ensures !Overlaps(plane, p, q, r, poly, 0, k) {
      var t := poly[(0 + k) % n];
      OnTheLine(X(plane, p), Y(plane, p), X(plane, r), Y(plane, r), X(plane, t), Y(plane, t), c, plus);
      OnTheLine(X(plane, q), Y(plane, q), X(plane, p), Y(plane, p), X(plane, t), Y(plane, t), c, plus);
      OnTheLine(X(plane, r), Y(plane, r), X(plane, q), Y(plane, q), X(plane, t), Y(plane, t), c, plus);
      hide Crosses;
    }
  }

  lemma CrossOnTheLine(plane: Plane, p: Corner, q: Corner, r: Corner, c: real, plus: bool)
    requires Along(plus, X(plane, p), Y(plane, p)) == Along(plus, X(plane, q), Y(plane, q)) == c
    requires Along(plus, X(plane, r), Y(plane, r)) == c
    ensures CrossOf(plane, p, q, r) == 0.0
  {
    var a, b := X(plane, q) - X(plane, p), X(plane, r) - X(plane, q);
    if plus {
      assert Y(plane, q) - Y(plane, p) == -a && Y(plane, r) - Y(plane, q) == -b;
      assert a * -b - -a * b == 0.0;
    } else {
      assert Y(plane, q) - Y(plane, p) == a && Y(plane, r) - Y(plane, q) == b;
      assert a * b - a * b == 0.0;
    }
    hide X, Y;
  }

  /** The state after k corners of the face have been clipped, each the one after the first. */
  function Fanned(face: seq<Corner>, k: nat, remaining: nat): Clipping
    requires k + 3 <= |face|
  {
    Clipping([face[0]] + face[k + 1..], 0, if k == 0 then |face| else |face| - k + 1, remaining, Fan(face[..k + 2]))
  }

  lemma FirstIsClipped(plane: Plane, area: real, s: Clipping)
    requires Going(s) && s.guess == 0 && IsEar(plane, area, s.poly, 0)
    ensures
      Attempt(plane, area, s) ==
      Clipping(Without(s.poly, 1), 0, |s.poly|, if s.previous != |s.poly| then |s.poly| else s.remaining - 1,
               s.out + [s.poly[0], s.poly[1], s.poly[2]])
  {
    hide IsEar, Without;
    Wrapped(1, |s.poly|);
    Wrapped(2, |s.poly|);
  }

  lemma FanStep<T>(face: seq<T>, k: nat)
    requires k + 3 <= |face|
    ensures Fan(face[..k + 3]) == Fan(face[..k + 2]) + [face[0], face[k + 1], face[k + 2]]
  {
    assert face[..k + 3][..k + 2] == face[..k + 2];
  }

  lemma FannedStep(v: seq<real>, area: real, face: seq<Corner>, c: real, plus: bool, k: nat, remaining: nat) returns (r: nat)
    requires Slanted(v, face, c, plus) && k + 3 < |face| && (if k == 0 then remaining == |face| else 0 < remaining)
    ensures Going(Fanned(face, k, remaining)) && 0 < r
    ensures Attempt(Plane(v, 0, 2), area, Fanned(face, k, remaining)) == Fanned(face, k + 1, r)
  {
    hide IsEar, Attempt, Fan;
    var s := Fanned(face, k, remaining);
    SlantedIsEar(v, area, s.poly, c, plus);
    hide Slanted;
    FirstIsClipped(Plane(v, 0, 2), area, s);
    FanStep(face, k);
    FannedPoly(face, k);
    r := if k == 0 then remaining - 1 else |s.poly|;
  }

  lemma FannedPoly(face: seq<Corner>, k: nat)
    requires k + 3 < |face|
    ensures
      var poly := [face[0]] + face[k + 1..];
      poly[0] == face[0] && poly[1] == face[k + 1] && poly[2] == face[k + 2] && Without(poly, 1) == [face[0]] + face[k + 2..]
  {
  }

  lemma {:induction false} ClipFans(v: seq<real>, area: real, face: seq<Corner>, c: real, plus: bool, k: nat, remaining: nat)
    requires Slanted(v, face, c, plus) && k + 3 <= |face| && (if k == 0 then remaining == |face| else 0 < remaining)
    ensures
      var s := Clip(Plane(v, 0, 2), area, Fanned(face, k, remaining));
      |s.poly| == 3 && s.out + s.poly == Fan(face)
    decreases |face| - k
  {
    hide Attempt, Fan, Slanted;
    if k + 3 == |face| {
      FanStep(face, k);
      assert face[..k + 3] == face;
      assert [face[0]] + face[k + 1..] == [face[0], face[k + 1], face[k + 2]];
    } else {
      var r := FannedStep(v, area, face, c, plus, k, remaining);
      hide Fanned;
      ClipFans(v, area, face, c, plus, k + 1, r);
    }
  }

  /** What the area grows by along a slanted line from a to b. */
  function Ahead(v: seq<real>, a: Corner, b: Corner, c: real): real {
    (X(Plane(v, 0, 2), a) - X(Plane(v, 0, 2), b)) * c * 0.5
  }

  lemma AheadAdds(v: seq<real>, a: Corner, b: Corner, d: Corner, c: real)
    ensures Ahead(v, a, b, c) + Ahead(v, b, d, c) == Ahead(v, a, d, c) && Ahead(v, a, a, c) == 0.0
  {
    var x, y, z := X(Plane(v, 0, 2), a), X(Plane(v, 0, 2), b), X(Plane(v, 0, 2), d);
    Distribute2(x - y, y - z, c);
  }

  lemma SlantedEdge(v: seq<real>, a: Corner, b: Corner, c: real, plus: bool)
    requires Slanted(v, [a, b], c, plus)
    ensures EdgeArea(Plane(v, 0, 2), Edge(a, b)) == Ahead(v, a, b, if plus then c else -c)
  {
    var plane := Plane(v, 0, 2);
    assert [a, b][0] == a && [a, b][1] == b;
    assert Slanted(v, [a], c, plus) && Slanted(v, [b], c, plus);
    SlantedPoints(v, a, c, plus);
    SlantedPoints(v, b, c, plus);
    hide X, Y, Slanted;
    LineArea(X(plane, a), Y(plane, a), X(plane, b), Y(plane, b), c, plus);
  }

  lemma LineArea(xa: real, ya: real, xb: real, yb: real, c: real, plus: bool)
    requires Along(plus, xa, ya) == Along(plus, xb, yb) == c
    ensures xa * yb - ya * xb == (xa - xb) * (if plus then c else -c)
  {
    if plus {
      assert ya == c - xa && yb == c - xb;
      assert xa * (c - xb) == xa * c - xa * xb && (c - xa) * xb == c * xb - xa * xb;
    } else {
      assert ya == xa - c && yb == xb - c;
      assert xa * (xb - c) == xa * xb - xa * c && (xa - c) * xb == xa * xb - c * xb;
    }
  }

  lemma {:induction false} SlantedPath(v: seq<real>, face: seq<Corner>, c: real, plus: bool)
    requires face != [] && Slanted(v, face, c, plus)
    ensures EdgeSum(AreaOf(Plane(v, 0, 2)), Path(face)) == Ahead(v, face[0], face[|face| - 1], if plus then c else -c)
  {
    hide Ahead, EdgeArea, EdgeSum;
    var c' := if plus then c else -c;
    var f, n := AreaOf(Plane(v, 0, 2)), |face|;
    if n == 1 {
      NoEdges(f);
      AheadAdds(v, face[0], face[0], face[0], c');
    } else {
      var last := Edge(face[n - 2], face[n - 1]);
      SlantedPath(v, face[..n - 1], c, plus);
      SlantedEdge(v, face[n - 2], face[n - 1], c, plus);
      hide Slanted;
      EdgeSumAppend(f, Path(face[..n - 1]), [last]);
      OneEdge(f, last);
      AheadAdds(v, face[0], face[n - 2], face[n - 1], c');
    }
  }

  lemma NoEdges(f: Edge<Corner> -> real)
    ensures EdgeSum(f, []) == 0.0
  {
  }

  lemma OneEdge(f: Edge<Corner> -> real, e: Edge<Corner>)
    ensures EdgeSum(f, [e]) == f(e)
  {
    assert [e][1..] == [];
  }

  lemma SlantedArea(v: seq<real>, face: seq<Corner>, c: real, plus: bool)
    requires face != [] && Slanted(v, face, c, plus)
    ensures FaceArea(Plane(v, 0, 2), face) == 0.0
  {
    hide Ahead, EdgeArea, EdgeSum, Path;
    var c' := if plus then c else -c;
    var f, n := AreaOf(Plane(v, 0, 2)), |face|;
    var last := Edge(face[n - 1], face[0]);
    SlantedPath(v, face, c, plus);
    SlantedEdge(v, face[n - 1], face[0], c, plus);
    hide Slanted;
    EdgeSumAppend(f, Path(face), [last]);
    OneEdge(f, last);
    AheadAdds(v, face[0], face[n - 1], face[0], c');
  }

  /**
    * A face on a plane x + z == c or x - z == c is never clipped by its ears: the chosen plane sees it edge on, so that
    * its area comes out as zero, and it is cut into the fan of its first corner, whatever its shape.
    */
  lemma SlantedFaceIsFanned(eps: real, v: seq<real>, face: seq<Corner>, c: real, plus: bool, k: nat)
    requires 3 <= |face| && Slanted(v, face, c, plus) && k < |face| && Decides(eps, v, face, k)
    ensures
      var plane := PlaneFor(eps, v, face);
      && plane == Plane(v, 0, 2) && FaceArea(plane, face) == 0.0
      && Triangulation(plane, FaceArea(plane, face), face) == Fan(face)
  {
    SlantedAxes(eps, v, face, c, plus, 0);
    var plane := Plane(v, 0, 2);
    SlantedArea(v, face, c, plus);
    StartFanned(face);
    ClipFans(v, FaceArea(plane, face), face, c, plus, 0, |face|);
    hide Decides, Fanned, StartOf, Fan, Slanted, FaceArea;
  }

  lemma StartFanned(face: seq<Corner>)
    requires 3 <= |face|
    ensures StartOf(face) == Fanned(face, 0, |face|)
  {
    assert [face[0]] + face[1..] == face;
    assert Fan(face[..2]) == [];
  }
}
