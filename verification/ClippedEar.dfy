/** Which corners the loop of the ear clipping cuts off, in terms of the other corners of the polygon
    (graphics/src/tiny_obj_loader.h, exportGroupsToShape with triangulation). */
module ClippedEars {
  import opened ConvexFaces
  import opened EarClipping
  import opened Sequences

  /** The state after j passes of the loop. */
  function Passed(plane: Plane, area: real, face: seq<Corner>, j: nat): Clipping {
    if j == 0 then StartOf(face)
    else
      var s := Passed(plane, area, face, j - 1);
      if Going(s) then Attempt(plane, area, s) else s
  }

  /** The loop is over after some of them. */
  lemma {:induction false} PassesEnd(plane: Plane, area: real, face: seq<Corner>, j: nat) returns (end: nat)
    ensures j <= end && Passed(plane, area, face, end) == Clip(plane, area, Passed(plane, area, face, j))
    ensures !Going(Passed(plane, area, face, end))
    decreases
      |Passed(plane, area, face, j).poly|,
      if Passed(plane, area, face, j).previous == |Passed(plane, area, face, j).poly| then 0 else 1,
      Passed(plane, area, face, j).remaining
  {
    hide Attempt;
    var s := Passed(plane, area, face, j);
    end := j;
    if Going(s) {
      AttemptShrinks(plane, area, s);
      end := PassesEnd(plane, area, face, j + 1);
    }
  }

  /** Position i is none of the three at g. */
  predicate IsOther(n: nat, g: nat, i: nat)
    requires 0 < n
  {
    i < n && i != g && i != (g + 1) % n && i != (g + 2) % n
  }

  /** The step from s to t cuts off the triangle at g: it is emitted, and the polygon loses its middle corner. */
  predicate CutsOff(s: Clipping, t: Clipping, g: nat)
    requires g < |s.poly|
  {
    var n := |s.poly|;
    var r := (g + 1) % n;
    t.out == s.out + [s.poly[g], s.poly[r], s.poly[(g + 2) % n]] && t.poly == Without(s.poly, r)
  }

  predicate Stays(s: Clipping, t: Clipping) {
    t.poly == s.poly && t.out == s.out
  }

  /** Twice the signed area of the triangle at g. */
  function TurnAt(plane: Plane, poly: seq<Corner>, g: nat): real
    requires g < |poly|
  {
    CrossOf(plane, poly[g], poly[(g + 1) % |poly|], poly[(g + 2) % |poly|])
  }

  /** Corner i has coordinates and lies in the triangle at g by the parity of crossings. */
  predicate InsideAt(plane: Plane, poly: seq<Corner>, g: nat, i: nat)
    requires g < |poly| && i < |poly|
  {
    InPlane(plane, poly[i]) &&
    Inside(plane, poly[g], poly[(g + 1) % |poly|], poly[(g + 2) % |poly|], poly[i])
  }

  /** Strictly within it. */
  predicate WithinAt(plane: Plane, poly: seq<Corner>, g: nat, i: nat)
    requires g < |poly| && i < |poly|
  {
    InPlane(plane, poly[i]) &&
    Within(plane, poly[g], poly[(g + 1) % |poly|], poly[(g + 2) % |poly|], poly[i])
  }

  /** Without coordinates, or strictly beyond one of its edges. */
  predicate ClearAt(plane: Plane, poly: seq<Corner>, g: nat, i: nat)
    requires g < |poly| && i < |poly|
  {
    InPlane(plane, poly[i]) ==>
    Beyond(plane, poly[g], poly[(g + 1) % |poly|], poly[(g + 2) % |poly|], poly[i])
  }

  /** No other corner is inside the triangle at g, by the parity of crossings. */
  ghost predicate NothingInside(plane: Plane, poly: seq<Corner>, g: nat)
    requires g < |poly|
  {
    forall i: nat :: IsOther(|poly|, g, i) ==> !InsideAt(plane, poly, g, i)
  }

  /** No other corner is strictly within the triangle at g. */
  ghost predicate NothingWithin(plane: Plane, poly: seq<Corner>, g: nat)
    requires g < |poly|
  {
    forall i: nat :: IsOther(|poly|, g, i) ==> !WithinAt(plane, poly, g, i)
  }

  /** Every other corner is strictly beyond an edge of the triangle at g, or has no coordinates. */
  ghost predicate AllClear(plane: Plane, poly: seq<Corner>, g: nat)
    requires g < |poly|
  {
    forall i: nat :: IsOther(|poly|, g, i) ==> ClearAt(plane, poly, g, i)
  }

  // The positions that the test goes through are all the others.

  lemma PositionOf(n: nat, g: nat, i: nat) returns (k: nat)
    requires 3 <= n && g < n && IsOther(n, g, i)
    ensures 3 <= k < n && (g + k) % n == i
  {
    k := if g <= i then i - g else i + n - g;
    Wrapped(g + k, n);
    Wrapped(g + 1, n);
    Wrapped(g + 2, n);
  }

  lemma IsOtherAt(n: nat, g: nat, k: nat)
    requires g < n && 3 <= k < n
    ensures 0 <= (g + k) % n < n && IsOther(n, g, (g + k) % n)
  {
    Wrapped(g + k, n);
    Wrapped(g + 1, n);
    Wrapped(g + 2, n);
  }

  lemma OverlapsIs(plane: Plane, poly: seq<Corner>, g: nat, k: nat)
    requires g < |poly| && 3 <= k < |poly|
    ensures 0 <= (g + k) % |poly| < |poly|
    ensures
      var n := |poly|;
      Overlaps(plane, poly[g], poly[(g + 1) % n], poly[(g + 2) % n], poly, g, k) <==>
      InsideAt(plane, poly, g, (g + k) % n)
  {
    hide Inside, InPlane;
    IsOtherAt(|poly|, g, k);
  }

  ghost predicate NoneOverlaps(plane: Plane, a: Corner, b: Corner, c: Corner, poly: seq<Corner>, g: nat)
    requires poly != []
  {
    forall k :: 3 <= k < |poly| ==> !Overlaps(plane, a, b, c, poly, g, k)
  }

  lemma EarIs(plane: Plane, area: real, poly: seq<Corner>, g: nat)
    requires 3 <= |poly| && g < |poly|
    ensures IsEar(plane, area, poly, g) <==> 0.0 <= TurnAt(plane, poly, g) * area && NothingInside(plane, poly, g)
  {
    hide CrossOf, Overlaps, InsideAt, IsOther;
    var n := |poly|;
    var a, b, c := poly[g], poly[(g + 1) % n], poly[(g + 2) % n];
    if NothingInside(plane, poly, g) {
      forall k: nat | 3 <= k < n ensures !Overlaps(plane, a, b, c, poly, g, k) {
        OverlapsIs(plane, poly, g, k);
        IsOtherAt(n, g, k);
      }
    }
    if NoneOverlaps(plane, a, b, c, poly, g) {
      NoOverlap(plane, poly, g);
    }
  }

  lemma NoOverlap(plane: Plane, poly: seq<Corner>, g: nat)
    requires 3 <= |poly| && g < |poly|
    requires NoneOverlaps(plane, poly[g], poly[(g + 1) % |poly|], poly[(g + 2) % |poly|], poly, g)
    ensures NothingInside(plane, poly, g)
  {
    hide Overlaps, InsideAt;
    forall i: nat | IsOther(|poly|, g, i) ensures !InsideAt(plane, poly, g, i) {
      var k := PositionOf(|poly|, g, i);
      OverlapsIs(plane, poly, g, k);
    }
  }

  lemma WithinIsInside(plane: Plane, poly: seq<Corner>, g: nat, i: nat)
    requires g < |poly| && i < |poly|
    ensures WithinAt(plane, poly, g, i) ==> InsideAt(plane, poly, g, i)
    ensures ClearAt(plane, poly, g, i) ==> !InsideAt(plane, poly, g, i) || TurnAt(plane, poly, g) == 0.0
  {
    var n := |poly|;
    var a, b, d := poly[g], poly[(g + 1) % n], poly[(g + 2) % n];
    hide Inside, CrossOf;
    if CrossOf(plane, a, b, d) != 0.0 {
      InsideMeansWithin(plane, a, b, d, poly[i]);
    }
  }

  lemma InsideWhereWithin(plane: Plane, poly: seq<Corner>, g: nat)
    requires g < |poly|
    ensures NothingInside(plane, poly, g) ==> NothingWithin(plane, poly, g)
    ensures AllClear(plane, poly, g) && TurnAt(plane, poly, g) != 0.0 ==> NothingInside(plane, poly, g)
  {
    hide IsOther, InsideAt, WithinAt, ClearAt, TurnAt;
    forall i: nat | i < |poly|
      ensures WithinAt(plane, poly, g, i) ==> InsideAt(plane, poly, g, i)
      ensures ClearAt(plane, poly, g, i) ==> !InsideAt(plane, poly, g, i) || TurnAt(plane, poly, g) == 0.0
    {
      WithinIsInside(plane, poly, g, i);
    }
    assert forall i: nat :: IsOther(|poly|, g, i) ==> i < |poly| by { OthersInRange(|poly|, g); }
  }

  lemma OthersInRange(n: nat, g: nat)
    requires 0 < n
    ensures forall i: nat :: IsOther(n, g, i) ==> i < n
  {
  }

  /**
    * What a pass does, in every state on the way: it cuts off the triangle at the corner that is tried exactly if that
    * turns the way the face does and no other corner of the polygon lies inside, whatever its position. If not, the
    * polygon stays as it is, and the next corner is tried.
    */
  lemma CutsOffExactly(plane: Plane, area: real, face: seq<Corner>, j: nat)
    requires Going(Passed(plane, area, face, j))
    ensures
      var s, t := Passed(plane, area, face, j), Passed(plane, area, face, j + 1);
      var g := Current(s);
      && g == (if s.guess == |s.poly| then 0 else s.guess)
      && if 0.0 <= TurnAt(plane, s.poly, g) * area && NothingInside(plane, s.poly, g)
         then CutsOff(s, t, g) && t.guess == g else Stays(s, t) && t.guess == g + 1
  {
    hide IsEar, TurnAt, NothingInside, Without, Attempt;
    var s := Passed(plane, area, face, j);
    EarIs(plane, area, s.poly, Current(s));
    AttemptIs(plane, area, s, IsEar(plane, area, s.poly, Current(s)));
  }

  /** A triangle that is cut off turns the way the face does, and no other corner of the polygon is strictly within it. */
  lemma ClippedTriangleIsFree(plane: Plane, area: real, face: seq<Corner>, j: nat)
    requires Going(Passed(plane, area, face, j))
    ensures
      var s, t := Passed(plane, area, face, j), Passed(plane, area, face, j + 1);
      var g := Current(s);
      || Stays(s, t)
      || (CutsOff(s, t, g) && 0.0 <= TurnAt(plane, s.poly, g) * area && NothingWithin(plane, s.poly, g))
  {
    hide Passed, CutsOff, Stays, TurnAt, NothingInside, NothingWithin;
    CutsOffExactly(plane, area, face, j);
    var s := Passed(plane, area, face, j);
    InsideWhereWithin(plane, s.poly, Current(s));
  }

  lemma NotFlat(turn: real, area: real)
    requires 0.0 < turn * area
    ensures turn != 0.0
  {
  }

  /** A triangle that turns the way the face does is cut off when every other corner is strictly beyond one of its edges. */
  lemma ClearCornerIsClipped(plane: Plane, area: real, face: seq<Corner>, j: nat)
    requires Going(Passed(plane, area, face, j))
    requires
      var s := Passed(plane, area, face, j);
      0.0 < TurnAt(plane, s.poly, Current(s)) * area && AllClear(plane, s.poly, Current(s))
    ensures
      var s, t := Passed(plane, area, face, j), Passed(plane, area, face, j + 1);
      CutsOff(s, t, Current(s))
  {
    hide Passed, CutsOff, Stays, TurnAt, NothingInside, AllClear;
    CutsOffExactly(plane, area, face, j);
    var s := Passed(plane, area, face, j);
    NotFlat(TurnAt(plane, s.poly, Current(s)), area);
    InsideWhereWithin(plane, s.poly, Current(s));
  }

  /** The triangulation is what the passes emit, and the last three corners if three are left. */
  lemma TriangulationIsPassed(plane: Plane, area: real, face: seq<Corner>) returns (end: nat)
    requires 3 <= |face|
    ensures
      var s := Passed(plane, area, face, end);
      !Going(s) && Triangulation(plane, area, face) == if |s.poly| == 3 then s.out + s.poly else s.out
  {
    end := PassesEnd(plane, area, face, 0);
    hide Attempt;
  }
}
