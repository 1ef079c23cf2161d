/** What the point-in-triangle test means, and that convex faces are cut up completely
    (graphics/src/tiny_obj_loader.h, pnpoly and exportGroupsToShape). */
module ConvexFaces {
  import opened Chains
  import opened EarClipping
  import opened Sequences

  // -------- sides of a line --------

  /** Positive to the left of the line from i to j, negative to its right. */
  function Side(xi: real, yi: real, xj: real, yj: real, tx: real, ty: real): real {
    (xj - xi) * (ty - yi) - (yj - yi) * (tx - xi)
  }

  lemma QuotientBound(t: real, a: real, d: real)
    requires d != 0.0
    ensures 0.0 < d ==> (t < a / d <==> t * d < a)
    ensures d < 0.0 ==> (t < a / d <==> a < t * d)
  {
    var q := a / d;
    assert q * d == a;
    assert (q - t) * d == a - t * d;
  }

  /** An edge is crossed when it goes up with the point on its left or down with the point on its right. */
  lemma CrossingIsSide(xi: real, yi: real, xj: real, yj: real, tx: real, ty: real)
    ensures Crosses(xi, yi, xj, yj, tx, ty) <==>
            (yi <= ty < yj && 0.0 < Side(xi, yi, xj, yj, tx, ty)) || (yj <= ty < yi && Side(xi, yi, xj, yj, tx, ty) < 0.0)
  {
    if yi != yj {
      var d, a := yj - yi, (xj - xi) * (ty - yi);
      QuotientBound(tx - xi, a, d);
      assert (tx - xi) * d == d * (tx - xi);
    }
  }

  lemma SideFlips(xi: real, yi: real, xj: real, yj: real, tx: real, ty: real)
    ensures Side(xj, yj, xi, yi, tx, ty) == -Side(xi, yi, xj, yj, tx, ty)
  {
    var a, b, p, q := xj - xi, yj - yi, tx - xi, ty - yi;
    assert (-a) * (q - b) - (-b) * (p - a) == -(a * q - b * p);
    assert xi - xj == -a && yi - yj == -b && ty - yj == q - b && tx - xj == p - a;
  }

  /** The three sides weigh the corners, so that the point is their mean. */
  lemma SidesWeigh(x0: real, y0: real, x1: real, y1: real, x2: real, y2: real, tx: real, ty: real)
    ensures
      var s0, s1, s2 := Side(x0, y0, x1, y1, tx, ty), Side(x1, y1, x2, y2, tx, ty), Side(x2, y2, x0, y0, tx, ty);
      && s1 * (y0 - ty) + s2 * (y1 - ty) + s0 * (y2 - ty) == 0.0
      && s0 + s1 + s2 == (x1 - x0) * (y2 - y1) - (y1 - y0) * (x2 - x1)
  {
    var a, b, c, p, q, r := x0 - tx, x1 - tx, x2 - tx, y0 - ty, y1 - ty, y2 - ty;
    SideExpanded(x0, y0, x1, y1, tx, ty);
    SideExpanded(x1, y1, x2, y2, tx, ty);
    SideExpanded(x2, y2, x0, y0, tx, ty);
    Mean(a, b, c, p, q, r);
    CrossExpanded(a, p, b, q, c, r);
    assert x1 - x0 == b - a && y2 - y1 == r - q && y1 - y0 == q - p && x2 - x1 == c - b;
  }

  lemma SideExpanded(xi: real, yi: real, xj: real, yj: real, tx: real, ty: real)
    ensures Side(xi, yi, xj, yj, tx, ty) == (xi - tx) * (yj - ty) - (yi - ty) * (xj - tx)
  {
    var a, b, p, q := xi - tx, xj - tx, yi - ty, yj - ty;
    assert xj - xi == b - a && yj - yi == q - p && ty - yi == -p && tx - xi == -a;
    assert (b - a) * -p - (q - p) * -a == a * q - p * b;
  }

  lemma Mean(a: real, b: real, c: real, p: real, q: real, r: real)
    ensures (b * r - q * c) * p + (c * p - r * a) * q + (a * q - p * b) * r == 0.0
  {
    assert (b * r - q * c) * p == b * r * p - q * c * p;
    assert (c * p - r * a) * q == c * p * q - r * a * q;
    assert (a * q - p * b) * r == a * q * r - p * b * r;
    assert b * r * p == p * b * r && q * c * p == c * p * q && r * a * q == a * q * r;
  }

  // -------- the parity of crossings --------

  /** The crossing of an edge between heights a and b over the point, whose side is s. */
  predicate Cut(a: real, b: real, s: real) {
    (a <= 0.0 < b && 0.0 < s) || (b <= 0.0 < a && s < 0.0)
  }

  lemma SignOfProduct(s: real, y: real)
    ensures 0.0 < s && 0.0 < y ==> 0.0 < s * y
    ensures s < 0.0 && y < 0.0 ==> 0.0 < s * y
    ensures 0.0 < s && y < 0.0 ==> s * y < 0.0
    ensures s < 0.0 && 0.0 < y ==> s * y < 0.0
    ensures s == 0.0 || y == 0.0 ==> s * y == 0.0
  {
  }

  /** For a triangle that turns left, an odd number of crossings means that the point is not to the right of any side,
      and a point to the left of all three sides has an odd number of crossings. */
  lemma LeftParity(p: real, q: real, r: real, s0: real, s1: real, s2: real)
    requires s1 * p + s2 * q + s0 * r == 0.0 && 0.0 < s0 + s1 + s2
    requires p != 0.0 || q != 0.0 || r != 0.0
    ensures var odd := (Cut(p, q, s0) != Cut(q, r, s1)) != Cut(r, p, s2);
      && (0.0 < s0 && 0.0 < s1 && 0.0 < s2 ==> odd)
      && (odd ==> 0.0 <= s0 && 0.0 <= s1 && 0.0 <= s2)
  {
    SignOfProduct(s1, p);
    SignOfProduct(s2, q);
    SignOfProduct(s0, r);
  }

  /** The same for a triangle that turns either way, with sides to the inside. */
  lemma Parity(p: real, q: real, r: real, s0: real, s1: real, s2: real)
    requires s1 * p + s2 * q + s0 * r == 0.0 && s0 + s1 + s2 != 0.0
    requires p != 0.0 || q != 0.0 || r != 0.0
    ensures var odd, left := (Cut(p, q, s0) != Cut(q, r, s1)) != Cut(r, p, s2), 0.0 < s0 + s1 + s2;
      && ((if left then 0.0 < s0 && 0.0 < s1 && 0.0 < s2 else s0 < 0.0 && s1 < 0.0 && s2 < 0.0) ==> odd)
      && (odd ==> if left then 0.0 <= s0 && 0.0 <= s1 && 0.0 <= s2 else s0 <= 0.0 && s1 <= 0.0 && s2 <= 0.0)
  {
    if 0.0 < s0 + s1 + s2 {
      LeftParity(p, q, r, s0, s1, s2);
    } else {
      assert (-s1) * p + (-s0) * r + (-s2) * q == 0.0;
      LeftParity(p, r, q, -s2, -s1, -s0);
    }
  }

  /** Whether the point of c is strictly on the inner side of all three edges of a triangle. */
  predicate Within(plane: Plane, a: Corner, b: Corner, d: Corner, c: Corner) {
    var turn := CrossOf(plane, a, b, d);
    && 0.0 < turn * CrossOf(plane, a, b, c)
    && 0.0 < turn * CrossOf(plane, b, d, c)
    && 0.0 < turn * CrossOf(plane, d, a, c)
  }

  /** Whether it is strictly beyond one of them. */
  predicate Beyond(plane: Plane, a: Corner, b: Corner, d: Corner, c: Corner) {
    var turn := CrossOf(plane, a, b, d);
    || turn * CrossOf(plane, a, b, c) < 0.0
    || turn * CrossOf(plane, b, d, c) < 0.0
    || turn * CrossOf(plane, d, a, c) < 0.0
  }

  lemma CrossIsSide(plane: Plane, p: Corner, q: Corner, t: Corner)
    ensures CrossOf(plane, p, q, t) == Side(X(plane, p), Y(plane, p), X(plane, q), Y(plane, q), X(plane, t), Y(plane, t))
  {
    var a, b := X(plane, q) - X(plane, p), Y(plane, q) - Y(plane, p);
    var c, d := X(plane, t) - X(plane, p), Y(plane, t) - Y(plane, p);
    assert X(plane, t) - X(plane, q) == c - a && Y(plane, t) - Y(plane, q) == d - b;
    assert a * (d - b) - b * (c - a) == a * d - b * c;
    hide X, Y;
  }

  lemma SignsWith(turn: real, s: real)
    requires turn != 0.0
    ensures 0.0 < turn ==> (0.0 < turn * s <==> 0.0 < s) && (turn * s < 0.0 <==> s < 0.0)
    ensures turn < 0.0 ==> (0.0 < turn * s <==> s < 0.0) && (turn * s < 0.0 <==> 0.0 < s)
  {
    SignOfProduct(turn, s);
  }

  lemma CutIsCross(xi: real, yi: real, xj: real, yj: real, tx: real, ty: real)
    ensures Crosses(xj, yj, xi, yi, tx, ty) == Cut(yi - ty, yj - ty, Side(xi, yi, xj, yj, tx, ty))
  {
    CrossingIsSide(xj, yj, xi, yi, tx, ty);
    SideFlips(xi, yi, xj, yj, tx, ty);
    hide Side, Crosses;
  }

  lemma Flat(x0: real, x1: real, x2: real, t: real)
    ensures Side(x0, t, x1, t, x2, t) == 0.0
  {
  }

  /** The test as a parity of cuts, with the cross products of the edges and the point as sides. */
  lemma InsideIsParity(plane: Plane, a: Corner, b: Corner, d: Corner, c: Corner)
    ensures
      var p, q, r := Y(plane, a) - Y(plane, c), Y(plane, b) - Y(plane, c), Y(plane, d) - Y(plane, c);
      var s0, s1, s2 := CrossOf(plane, a, b, c), CrossOf(plane, b, d, c), CrossOf(plane, d, a, c);
      Inside(plane, a, b, d, c) <==> (Cut(p, q, s0) != Cut(q, r, s1)) != Cut(r, p, s2)
  {
    hide X, Y, Side, CrossOf, Crosses, Cut;
    CrossIsSide(plane, a, b, c);
    CrossIsSide(plane, b, d, c);
    CrossIsSide(plane, d, a, c);
    CutIsCross(X(plane, a), Y(plane, a), X(plane, b), Y(plane, b), X(plane, c), Y(plane, c));
    CutIsCross(X(plane, b), Y(plane, b), X(plane, d), Y(plane, d), X(plane, c), Y(plane, c));
    CutIsCross(X(plane, d), Y(plane, d), X(plane, a), Y(plane, a), X(plane, c), Y(plane, c));
  }

  lemma CrossesWeigh(plane: Plane, a: Corner, b: Corner, d: Corner, c: Corner)
    ensures
      var p, q, r := Y(plane, a) - Y(plane, c), Y(plane, b) - Y(plane, c), Y(plane, d) - Y(plane, c);
      var s0, s1, s2 := CrossOf(plane, a, b, c), CrossOf(plane, b, d, c), CrossOf(plane, d, a, c);
      && s1 * p + s2 * q + s0 * r == 0.0
      && s0 + s1 + s2 == CrossOf(plane, a, b, d)
      && (p == q == r == 0.0 ==> s0 == s1 == s2 == 0.0)
  {
    CrossIsSide(plane, a, b, c);
    CrossIsSide(plane, b, d, c);
    CrossIsSide(plane, d, a, c);
    SidesWeigh(X(plane, a), Y(plane, a), X(plane, b), Y(plane, b), X(plane, d), Y(plane, d), X(plane, c), Y(plane, c));
    Flat(X(plane, a), X(plane, b), X(plane, c), Y(plane, c));
    Flat(X(plane, b), X(plane, d), X(plane, c), Y(plane, c));
    Flat(X(plane, d), X(plane, a), X(plane, c), Y(plane, c));
    hide X, Y, Side;
  }

  /** What the parity of crossings means for a triangle that is not flat: a point strictly within all edges is inside,
      and one strictly beyond an edge is not. */
  lemma InsideMeansWithin(plane: Plane, a: Corner, b: Corner, d: Corner, c: Corner)
    requires CrossOf(plane, a, b, d) != 0.0
    ensures Within(plane, a, b, d, c) ==> Inside(plane, a, b, d, c)
    ensures Beyond(plane, a, b, d, c) ==> !Inside(plane, a, b, d, c)
  {
    hide Inside, Cut, Y, CrossOf;
    InsideIsParity(plane, a, b, d, c);
    CrossesWeigh(plane, a, b, d, c);
    var s0, s1, s2 := CrossOf(plane, a, b, c), CrossOf(plane, b, d, c), CrossOf(plane, d, a, c);
    SignsWith(CrossOf(plane, a, b, d), s0);
    SignsWith(CrossOf(plane, a, b, d), s1);
    SignsWith(CrossOf(plane, a, b, d), s2);
    Parity(Y(plane, a) - Y(plane, c), Y(plane, b) - Y(plane, c), Y(plane, d) - Y(plane, c), s0, s1, s2);
  }

  // -------- convex faces --------

  /** All corners have coordinates, and any three of them, in their order, turn the same way. */
  ghost predicate Convex(plane: Plane, poly: seq<Corner>, area: real) {
    && (forall i :: 0 <= i < |poly| ==> InPlane(plane, poly[i]))
    && (forall i, j, k :: 0 <= i < j < k < |poly| ==> 0.0 < CrossOf(plane, poly[i], poly[j], poly[k]) * area)
  }

  lemma CrossRotates(plane: Plane, p: Corner, q: Corner, t: Corner)
    ensures CrossOf(plane, p, q, t) == CrossOf(plane, q, t, p)
    ensures CrossOf(plane, q, p, t) == -CrossOf(plane, p, q, t)
  {
    CrossExpanded(X(plane, p), Y(plane, p), X(plane, q), Y(plane, q), X(plane, t), Y(plane, t));
    CrossExpanded(X(plane, q), Y(plane, q), X(plane, t), Y(plane, t), X(plane, p), Y(plane, p));
    CrossExpanded(X(plane, q), Y(plane, q), X(plane, p), Y(plane, p), X(plane, t), Y(plane, t));
    hide X, Y;
  }

  /** The order may start at any corner. */
  lemma ConvexAround(plane: Plane, poly: seq<Corner>, area: real, g: nat, u: nat, w: nat)
    requires Convex(plane, poly, area) && g < |poly| && 0 < u < w < |poly|
    ensures
      var n := |poly|;
      0.0 < CrossOf(plane, poly[g], poly[(g + u) % n], poly[(g + w) % n]) * area
  {
    hide CrossOf, InPlane;
    var n := |poly|;
    Wrapped(g + u, n);
    Wrapped(g + w, n);
    var a, b, c := poly[g], poly[Wrap(g + u, n)], poly[Wrap(g + w, n)];
    CrossRotates(plane, a, b, c);
    CrossRotates(plane, b, c, a);
  }

  lemma OppositeSigns(turn: real, cross: real, area: real)
    requires 0.0 < turn * area && 0.0 < cross * area
    ensures turn != 0.0 && turn * -cross < 0.0
  {
    SignOfProduct(turn, area);
    SignOfProduct(cross, area);
    SignOfProduct(turn, -cross);
  }

  lemma ConvexIsEar(plane: Plane, poly: seq<Corner>, area: real, g: nat)
    requires Convex(plane, poly, area) && 3 <= |poly| && g < |poly|
    ensures IsEar(plane, area, poly, g)
  {
    hide CrossOf, InPlane, Inside, Convex;
    var n := |poly|;
    var a, b, d := poly[g], poly[(g + 1) % n], poly[(g + 2) % n];
    ConvexAround(plane, poly, area, g, 1, 2);
    forall k | 3 <= k < n ensures !Overlaps(plane, a, b, d, poly, g, k) {
      var c := poly[(g + k) % n];
      ConvexAround(plane, poly, area, g, 2, k);
      CrossRotates(plane, a, d, c);
      OppositeSigns(CrossOf(plane, a, b, d), CrossOf(plane, a, d, c), area);
      InsideMeansWithin(plane, a, b, d, c);
    }
  }

  lemma WithoutIsConvex(plane: Plane, poly: seq<Corner>, area: real, r: nat)
    requires Convex(plane, poly, area) && r < |poly|
    ensures Convex(plane, Without(poly, r), area)
  {
    hide CrossOf, InPlane;
    var rest := Without(poly, r);
    forall i | 0 <= i < |rest| ensures rest[i] == poly[if i < r then i else i + 1] && InPlane(plane, rest[i]) {
    }
    forall i, j, k | 0 <= i < j < k < |rest| ensures 0.0 < CrossOf(plane, rest[i], rest[j], rest[k]) * area {
      var i', j', k' := if i < r then i else i + 1, if j < r then j else j + 1, if k < r then k else k + 1;
      assert rest[i] == poly[i'] && rest[j] == poly[j'] && rest[k] == poly[k'];
    }
  }

  lemma {:induction false} ClipKeepsConvex(plane: Plane, area: real, s: Clipping)
    requires Convex(plane, s.poly, area)
    ensures Convex(plane, Clip(plane, area, s).poly, area)
    decreases |s.poly|, if s.previous == |s.poly| then 0 else 1, s.remaining
  {
    hide Convex, IsEar, Without;
    if Going(s) {
      WithoutIsConvex(plane, s.poly, area, (Current(s) + 1) % |s.poly|);
      ClipKeepsConvex(plane, area, Attempt(plane, area, s));
    }
  }

  /** The area of a convex face turns the way its corners do. */
  lemma {:induction false} ConvexArea(plane: Plane, poly: seq<Corner>, sign: real)
    requires Convex(plane, poly, sign) && 3 <= |poly|
    ensures 0.0 < FaceArea(plane, poly) * sign
  {
    hide CrossOf, InPlane, FaceArea;
    var n := |poly|;
    var a, b, c := poly[n - 2], poly[n - 1], poly[0];
    assert 0.0 < CrossOf(plane, c, a, b) * sign;
    CrossRotates(plane, c, a, b);
    if n == 3 {
      assert poly == [c, a, b];
      AreaOfThree(plane, c, a, b);
      HalfOf(CrossOf(plane, c, a, b), sign);
    } else {
      WithoutIsConvex(plane, poly, sign, n - 1);
      ConvexArea(plane, Without(poly, n - 1), sign);
      AreaWithoutLast(plane, poly);
      HalfOf(CrossOf(plane, a, b, c), sign);
      SumTimes(FaceArea(plane, Without(poly, n - 1)), CrossOf(plane, a, b, c) * 0.5, sign);
    }
  }

  lemma HalfOf(a: real, k: real)
    ensures a * 0.5 * k == a * k * 0.5
  {
  }

  lemma SumTimes(a: real, b: real, k: real)
    ensures (a + b) * k == a * k + b * k
  {
  }

  lemma AreaOfThree(plane: Plane, a: Corner, b: Corner, c: Corner)
    requires InPlane(plane, a) && InPlane(plane, b) && InPlane(plane, c)
    ensures FaceArea(plane, [a, b, c]) == CrossOf(plane, a, b, c) * 0.5
  {
    BoundaryOfThree(a, b, c);
    TriangleArea(plane, a, b, c);
  }

  lemma AreaWithoutLast(plane: Plane, poly: seq<Corner>)
    requires 3 < |poly| && forall i :: 0 <= i < |poly| ==> InPlane(plane, poly[i])
    ensures
      var n := |poly|;
      FaceArea(plane, poly) ==
      FaceArea(plane, Without(poly, n - 1)) + CrossOf(plane, poly[n - 2], poly[n - 1], poly[0]) * 0.5
  {
    hide CrossOf, InPlane, Net, Boundary, Triangle, EdgeSum, Without;
    var n := |poly|;
    var t, rest := Triangle(poly[n - 2], poly[n - 1], poly[0]), Boundary(Without(poly, n - 1));
    forall e ensures Net(Boundary(poly), e) == Net(rest + t, e) {
      ClipKeepsChain(poly, n - 2, n - 1, 0, e);
      NetAppend(rest, t, e);
    }
    AreaIsAntisymmetric(plane);
    SameChainSameSum(AreaOf(plane), Boundary(poly), rest + t);
    EdgeSumAppend(AreaOf(plane), rest, t);
    TriangleArea(plane, poly[n - 2], poly[n - 1], poly[0]);
  }

  lemma SameSign(cross: real, sign: real, area: real)
    requires 0.0 < cross * sign && 0.0 < area * sign
    ensures 0.0 < cross * area
  {
    SignOfProduct(cross, sign);
    SignOfProduct(area, sign);
    SignOfProduct(cross, area);
  }

  lemma ConvexForArea(plane: Plane, face: seq<Corner>, sign: real, area: real)
    requires Convex(plane, face, sign) && 0.0 < area * sign
    ensures Convex(plane, face, area)
  {
    hide CrossOf, InPlane;
    forall i, j, k | 0 <= i < j < k < |face| ensures 0.0 < CrossOf(plane, face[i], face[j], face[k]) * area {
      SameSign(CrossOf(plane, face[i], face[j], face[k]), sign, area);
    }
  }

  /** A strictly convex face, of either orientation, is cut up completely, into n - 2 triangles none of which is flipped. */
  lemma ConvexFaceIsCutUp(plane: Plane, face: seq<Corner>, sign: real)
    requires 3 <= |face| && Convex(plane, face, sign)
    ensures
      var area := FaceArea(plane, face);
      && LeftOver(plane, area, face) == []
      && |Triangulation(plane, area, face)| == 3 * (|face| - 2)
      && AllTurn(plane, area, Triangulation(plane, area, face))
  {
    hide CrossOf, InPlane, IsEar, FaceArea, Convex, AllTurn;
    var area := FaceArea(plane, face);
    ConvexArea(plane, face, sign);
    ConvexForArea(plane, face, sign, area);
    ConvexLeavesNothing(plane, face, area);
    TriangulationConserves(plane, area, face);
    ConvexTurns(plane, face, area);
  }

  lemma ConvexLeavesNothing(plane: Plane, face: seq<Corner>, area: real)
    requires 3 <= |face| && Convex(plane, face, area)
    ensures LeftOver(plane, area, face) == []
  {
    hide IsEar, Convex, Clip;
    GivesUpWithoutEars(plane, area, face);
    LeftOverSize(plane, area, face);
    ClipKeepsConvex(plane, area, StartOf(face));
    ConvexIsEar(plane, face, area, 0);
    var rest := Clip(plane, area, StartOf(face)).poly;
    if 4 <= |rest| {
      ConvexIsEar(plane, rest, area, 0);
    }
  }

  lemma ConvexTurns(plane: Plane, face: seq<Corner>, area: real)
    requires 3 <= |face| && Convex(plane, face, area) && LeftOver(plane, area, face) == []
    ensures AllTurn(plane, area, Triangulation(plane, area, face))
  {
    hide Clip, AllTurn, CrossOf, Convex;
    var s := Clip(plane, area, StartOf(face));
    assert AllTurn(plane, area, []) by { NothingTurns(plane, area); }
    ClipTurns(plane, area, StartOf(face));
    ClipKeepsConvex(plane, area, StartOf(face));
    EndsWithThree(plane, area, face);
    ThreeTurn(plane, s.poly, area);
    TurnAppended(plane, area, s.out, s.poly[0], s.poly[1], s.poly[2]);
  }

  lemma NothingTurns(plane: Plane, area: real)
    ensures AllTurn(plane, area, [])
  {
  }

  lemma ThreeTurn(plane: Plane, poly: seq<Corner>, area: real)
    requires Convex(plane, poly, area) && |poly| == 3
    ensures 0.0 < CrossOf(plane, poly[0], poly[1], poly[2]) * area
  {
  }

  lemma AtLeastThree(face: seq<Corner>, s: Clipping)
    requires Conserved(face, s)
    ensures 3 <= |s.poly|
  {
  }

  lemma EndsWithThree(plane: Plane, area: real, face: seq<Corner>)
    requires 3 <= |face| && LeftOver(plane, area, face) == []
    ensures
      var s := Clip(plane, area, StartOf(face));
      |s.poly| == 3 && Triangulation(plane, area, face) == s.out + [s.poly[0], s.poly[1], s.poly[2]]
  {
    hide Clip, Going, StartOf, Conserved;
    StartConserved(face);
    ClipConserves(plane, area, face, StartOf(face));
    var poly := Clip(plane, area, StartOf(face)).poly;
    AtLeastThree(face, Clip(plane, area, StartOf(face)));
    assert |poly| == 3 ==> poly == [poly[0], poly[1], poly[2]];
  }
}
