/** The index buffer of a tube (graphics/src/MeshManager.cc, CreateTube): one strip of triangles from each row
    of vertices to the next, around the outer wall, the top rim, the inner wall and the bottom rim, and two end
    caps unless the tube is a full circle. */
module Tubes {
  import opened Chains
  import opened Vectors
  import opened SubMeshes

  /** The index of the vertex in row i and column s. Rows 0..rings are the outer wall, bottom to top; rows
      rings+1..2*rings+1 are the inner wall, top to bottom. */
  type Naming = (nat, nat) -> nat

  function Grid(segments: nat): Naming {
    (i: nat, s: nat) => i * (segments + 1) + s
  }

  function VertexCount(rings: nat, segments: nat): nat {
    Grid(segments)(2 * (rings + 1), 0)
  }

  // -------- the emitted indices, in the order of emission --------

  function LowerTriangle(v: Naming, i: nat, s: nat): seq<nat> {
    [v(i + 1, s), v(i, s + 1), v(i, s)]
  }

  function WallStep(v: Naming, segments: nat, i: nat, s: nat): (r: seq<nat>)
    ensures |r| % 3 == 0
  {
    (if s != 0 then [v(i + 1, s), v(i, s), v(i + 1, s - 1)] else [])
      + (if s != segments then LowerTriangle(v, i, s) else [])
  }

  function RimCell(v: Naming, rings: nat, s: nat): seq<nat> {
    [v(rings, s), v(rings + 1, s), v(rings, s + 1)]
      + [v(rings, s + 1), v(rings + 1, s), v(rings + 1, s + 1)]
  }

  function BottomCell(v: Naming, rings: nat, s: nat): seq<nat> {
    var last := 2 * rings + 1;
    [v(0, s + 1), v(last, s), v(0, s)] + [v(last, s + 1), v(last, s), v(0, s + 1)]
  }

  function OuterStep(v: Naming, rings: nat, segments: nat, ring: nat, s: nat): (r: seq<nat>)
    ensures |r| % 3 == 0
  {
    (if ring != rings then WallStep(v, segments, ring, s)
     else if s != segments then RimCell(v, rings, s) else [])
      + (if ring == 0 && s < segments then BottomCell(v, rings, s) else [])
  }

  function InnerStep(v: Naming, rings: nat, segments: nat, ring: nat, s: nat): (r: seq<nat>)
    ensures |r| % 3 == 0
  {
    if ring != rings then WallStep(v, segments, rings + 1 + ring, s) else []
  }

  function OuterRing(v: Naming, rings: nat, segments: nat, ring: nat, n: nat): (r: seq<nat>)
    ensures |r| % 3 == 0
  {
    if n == 0 then [] else OuterRing(v, rings, segments, ring, n - 1) + OuterStep(v, rings, segments, ring, n - 1)
  }

  function InnerRing(v: Naming, rings: nat, segments: nat, ring: nat, n: nat): (r: seq<nat>)
    ensures |r| % 3 == 0
  {
    if n == 0 then [] else InnerRing(v, rings, segments, ring, n - 1) + InnerStep(v, rings, segments, ring, n - 1)
  }

  function Outer(v: Naming, rings: nat, segments: nat, n: nat): (r: seq<nat>)
    ensures |r| % 3 == 0
  {
    if n == 0 then [] else Outer(v, rings, segments, n - 1) + OuterRing(v, rings, segments, n - 1, segments + 1)
  }

  function Inner(v: Naming, rings: nat, segments: nat, n: nat): (r: seq<nat>)
    ensures |r| % 3 == 0
  {
    if n == 0 then [] else Inner(v, rings, segments, n - 1) + InnerRing(v, rings, segments, n - 1, segments + 1)
  }

  function CapCell(v: Naming, rings: nat, segments: nat, r: nat): (cell: seq<nat>)
    requires r < rings
    ensures |cell| == 12
  {
    var p, q, q', p' := r, r + 1, 2 * rings - r, 2 * rings + 1 - r;
    [v(q, 0), v(p, 0), v(q', 0)] + [v(q', 0), v(p, 0), v(p', 0)]
      + [v(q', segments), v(p', segments), v(q, segments)] + [v(q, segments), v(p', segments), v(p, segments)]
  }

  function Caps(v: Naming, rings: nat, segments: nat, n: nat): (r: seq<nat>)
    requires n <= rings
    ensures |r| % 3 == 0
  {
    if n == 0 then [] else Caps(v, rings, segments, n - 1) + CapCell(v, rings, segments, n - 1)
  }

  function Walls(v: Naming, rings: nat, segments: nat): (r: seq<nat>)
    ensures |r| % 3 == 0
  {
    Outer(v, rings, segments, rings + 1) + Inner(v, rings, segments, rings + 1)
  }

  function TubeIndices(v: Naming, rings: nat, segments: nat, fullCircle: bool): (r: seq<nat>)
    ensures |r| % 3 == 0
  {
    Walls(v, rings, segments) + (if fullCircle then [] else Caps(v, rings, segments, rings))
  }

  // -------- the chain they form --------

  ghost function NetOf(indices: seq<nat>, e: Edge<nat>): int
    requires |indices| % 3 == 0
  {
    Net(TriangleEdges(indices), e)
  }

  lemma NetSum(s: seq<nat>, t: seq<nat>, e: Edge<nat>)
    requires |s| % 3 == 0 && |t| % 3 == 0
    ensures NetOf(s + t, e) == NetOf(s, e) + NetOf(t, e)
  {
    TriangleEdgesAppend(s, t);
    NetAppend(TriangleEdges(s), TriangleEdges(t), e);
  }

  lemma NetTriangle(a: nat, b: nat, c: nat, e: Edge<nat>)
    ensures NetOf([a, b, c], e) == Arc(a, b, e) + Arc(b, c, e) + Arc(c, a, e)
  {
    assert [a, b, c][..0] == [];
    assert TriangleEdges([a, b, c]) == [] + Triangle(a, b, c) == Triangle(a, b, c);
    NetOfTriangle(a, b, c, e);
  }

  lemma NetNone(e: Edge<nat>)
    ensures NetOf([], e) == 0
  {
  }

  /** The path along the first s edges of row i. */
  ghost function Row(v: Naming, i: nat, s: nat, e: Edge<nat>): int {
    if s == 0 then 0 else Row(v, i, s - 1, e) + Arc(v(i, s - 1), v(i, s), e)
  }

  /** The path along the first n edges of column s. */
  ghost function Column(v: Naming, s: nat, n: nat, e: Edge<nat>): int {
    if n == 0 then 0 else Column(v, s, n - 1, e) + Arc(v(n - 1, s), v(n, s), e)
  }

  /** The boundary of the first s cells between row i and row j. */
  ghost function Strip(v: Naming, i: nat, j: nat, s: nat, e: Edge<nat>): int {
    Arc(v(i, 0), v(j, 0), e) - Arc(v(i, s), v(j, s), e) + Row(v, j, s, e) - Row(v, i, s, e)
  }

  ghost function Lower(v: Naming, i: nat, s: nat, e: Edge<nat>): int {
    Arc(v(i + 1, s), v(i, s + 1), e) + Arc(v(i, s + 1), v(i, s), e) + Arc(v(i, s), v(i + 1, s), e)
  }

  /** After n steps along a wall the cells closed so far, and one triangle of the next. */
  ghost function WallNet(v: Naming, segments: nat, i: nat, n: nat, e: Edge<nat>): int {
    if n == 0 then 0 else Strip(v, i, i + 1, n - 1, e) + (if n - 1 < segments then Lower(v, i, n - 1, e) else 0)
  }

  // The second triangle of a cell closes it.
  lemma UpperNet(v: Naming, i: nat, s: nat, e: Edge<nat>)
    requires 0 < s
    ensures NetOf([v(i + 1, s), v(i, s), v(i + 1, s - 1)], e)
         == Strip(v, i, i + 1, s, e) - Strip(v, i, i + 1, s - 1, e) - Lower(v, i, s - 1, e)
  {
    hide Arc, NetOf;
    NetTriangle(v(i + 1, s), v(i, s), v(i + 1, s - 1), e);
    ArcFlip(v(i, s), v(i + 1, s), e);
    ArcFlip(v(i, s - 1), v(i, s), e);
    ArcFlip(v(i + 1, s - 1), v(i, s), e);
  }

  lemma EmptyStrip(v: Naming, i: nat, j: nat, e: Edge<nat>)
    ensures Strip(v, i, j, 0, e) == 0
  {
  }

  lemma WallStepNet(v: Naming, segments: nat, i: nat, s: nat, e: Edge<nat>)
    requires s <= segments
    ensures NetOf(WallStep(v, segments, i, s), e) == WallNet(v, segments, i, s + 1, e) - WallNet(v, segments, i, s, e)
  {
    hide Arc, NetOf, Strip;
    var upper := if s != 0 then [v(i + 1, s), v(i, s), v(i + 1, s - 1)] else [];
    var lower := if s != segments then LowerTriangle(v, i, s) else [];
    NetSum(upper, lower, e);
    NetTriangle(v(i + 1, s), v(i, s + 1), v(i, s), e);
    NetNone(e);
    EmptyStrip(v, i, i + 1, e);
    if s != 0 {
      UpperNet(v, i, s, e);
    }
  }

  lemma RimCellNet(v: Naming, rings: nat, s: nat, e: Edge<nat>)
    ensures NetOf(RimCell(v, rings, s), e)
         == Strip(v, rings, rings + 1, s + 1, e) - Strip(v, rings, rings + 1, s, e)
  {
    hide Arc, NetOf;
    var a, b, c, d := v(rings, s), v(rings, s + 1), v(rings + 1, s), v(rings + 1, s + 1);
    NetSum([a, c, b], [b, c, d], e);
    NetTriangle(a, c, b, e);
    NetTriangle(b, c, d, e);
    ArcFlip(a, b, e);
    ArcFlip(b, c, e);
    ArcFlip(b, d, e);
  }

  lemma BottomCellNet(v: Naming, rings: nat, s: nat, e: Edge<nat>)
    ensures NetOf(BottomCell(v, rings, s), e)
         == Strip(v, 2 * rings + 1, 0, s + 1, e) - Strip(v, 2 * rings + 1, 0, s, e)
  {
    hide Arc, NetOf;
    var last := 2 * rings + 1;
    var a, b, c, d := v(last, s), v(last, s + 1), v(0, s), v(0, s + 1);
    NetSum([d, a, c], [b, a, d], e);
    NetTriangle(d, a, c, e);
    NetTriangle(b, a, d, e);
    ArcFlip(a, b, e);
    ArcFlip(a, d, e);
    ArcFlip(b, d, e);
  }

  lemma {:induction false} OuterRingNet(v: Naming, rings: nat, segments: nat, ring: nat, n: nat, e: Edge<nat>)
    requires ring <= rings && 1 <= rings && n <= segments + 1
    ensures var m := if n <= segments then n else segments;
      NetOf(OuterRing(v, rings, segments, ring, n), e)
        == (if ring != rings then WallNet(v, segments, ring, n, e) else Strip(v, rings, rings + 1, m, e))
         + (if ring == 0 then Strip(v, 2 * rings + 1, 0, m, e) else 0)
  {
    hide Arc, NetOf, Strip, WallStep, RimCell, BottomCell;
    NetNone(e);
    EmptyStrip(v, rings, rings + 1, e);
    EmptyStrip(v, 2 * rings + 1, 0, e);
    if n != 0 {
      hide WallNet;
      var s := n - 1;
      OuterRingNet(v, rings, segments, ring, s, e);
      NetSum(OuterRing(v, rings, segments, ring, s), OuterStep(v, rings, segments, ring, s), e);
      var walls := if ring != rings then WallStep(v, segments, ring, s)
                   else if s != segments then RimCell(v, rings, s) else [];
      var bottom := if ring == 0 && s < segments then BottomCell(v, rings, s) else [];
      NetSum(walls, bottom, e);
      WallStepNet(v, segments, ring, s, e);
      RimCellNet(v, rings, s, e);
      BottomCellNet(v, rings, s, e);
    }
  }

  lemma {:induction false} InnerRingNet(v: Naming, rings: nat, segments: nat, ring: nat, n: nat, e: Edge<nat>)
    requires ring < rings && n <= segments + 1
    ensures NetOf(InnerRing(v, rings, segments, ring, n), e) == WallNet(v, segments, rings + 1 + ring, n, e)
  {
    hide NetOf, WallStep;
    NetNone(e);
    if n != 0 {
      hide WallNet;
      InnerRingNet(v, rings, segments, ring, n - 1, e);
      NetSum(InnerRing(v, rings, segments, ring, n - 1), InnerStep(v, rings, segments, ring, n - 1), e);
      WallStepNet(v, segments, rings + 1 + ring, n - 1, e);
    }
  }

  lemma {:induction false} NoInnerRim(v: Naming, rings: nat, segments: nat, n: nat)
    ensures InnerRing(v, rings, segments, rings, n) == []
  {
    if n != 0 {
      NoInnerRim(v, rings, segments, n - 1);
    }
  }

  lemma {:induction false} OuterNet(v: Naming, rings: nat, segments: nat, n: nat, e: Edge<nat>)
    requires 1 <= rings && n <= rings + 1
    ensures NetOf(Outer(v, rings, segments, n), e)
         == Column(v, 0, n, e) - Column(v, segments, n, e) + Row(v, n, segments, e) - Row(v, 0, segments, e)
            + (if n == 0 then 0 else Strip(v, 2 * rings + 1, 0, segments, e))
  {
    hide Arc, NetOf, Row, OuterRing;
    NetNone(e);
    if n != 0 {
      OuterNet(v, rings, segments, n - 1, e);
      NetSum(Outer(v, rings, segments, n - 1), OuterRing(v, rings, segments, n - 1, segments + 1), e);
      OuterRingNet(v, rings, segments, n - 1, segments + 1, e);
    }
  }

  lemma {:induction false} InnerNet(v: Naming, rings: nat, segments: nat, n: nat, e: Edge<nat>)
    requires n <= rings
    ensures NetOf(Inner(v, rings, segments, n), e)
         == Column(v, 0, rings + 1 + n, e) - Column(v, 0, rings + 1, e)
            - Column(v, segments, rings + 1 + n, e) + Column(v, segments, rings + 1, e)
            + Row(v, rings + 1 + n, segments, e) - Row(v, rings + 1, segments, e)
  {
    hide Arc, NetOf, Row, InnerRing;
    NetNone(e);
    if n != 0 {
      InnerNet(v, rings, segments, n - 1, e);
      NetSum(Inner(v, rings, segments, n - 1), InnerRing(v, rings, segments, n - 1, segments + 1), e);
      InnerRingNet(v, rings, segments, n - 1, segments + 1, e);
    }
  }

  /** The loop through all rows along one column. */
  ghost function Loop(v: Naming, rings: nat, s: nat, e: Edge<nat>): int {
    Column(v, s, 2 * rings + 1, e) + Arc(v(2 * rings + 1, s), v(0, s), e)
  }

  lemma LastArc(v: Naming, rings: nat, s: nat, e: Edge<nat>)
    ensures Column(v, s, rings + 1, e) == Column(v, s, rings, e) + Arc(v(rings, s), v(rings + 1, s), e)
  {
  }

  /** All rows cancel: the walls and rims are bounded by a loop along the first and one along the last column. */
  lemma WallsNet(v: Naming, rings: nat, segments: nat, e: Edge<nat>)
    requires 1 <= rings
    ensures NetOf(Walls(v, rings, segments), e) == Loop(v, rings, 0, e) - Loop(v, rings, segments, e)
  {
    hide Arc, NetOf, Row, Column, Outer, InnerRing;
    NoInnerRim(v, rings, segments, segments + 1);
    assert Inner(v, rings, segments, rings + 1) == Inner(v, rings, segments, rings);
    NetSum(Outer(v, rings, segments, rings + 1), Inner(v, rings, segments, rings + 1), e);
    OuterNet(v, rings, segments, rings + 1, e);
    InnerNet(v, rings, segments, rings, e);
    LastArc(v, rings, 0, e);
    LastArc(v, rings, segments, e);
  }

  lemma CapCellNet(v: Naming, rings: nat, segments: nat, r: nat, e: Edge<nat>)
    requires r < rings
    ensures NetOf(CapCell(v, rings, segments, r), e)
         == CapSide(v, rings, 0, r, e) - CapSide(v, rings, segments, r, e)
  {
    hide Arc, NetOf;
    var p, q, q', p' := r, r + 1, 2 * rings - r, 2 * rings + 1 - r;
    var t0, t1 := [v(q, 0), v(p, 0), v(q', 0)], [v(q', 0), v(p, 0), v(p', 0)];
    var t2 := [v(q', segments), v(p', segments), v(q, segments)];
    var t3 := [v(q, segments), v(p', segments), v(p, segments)];
    NetSum(t0 + t1 + t2, t3, e);
    NetSum(t0 + t1, t2, e);
    NetSum(t0, t1, e);
    NetTriangle(v(q, 0), v(p, 0), v(q', 0), e);
    NetTriangle(v(q', 0), v(p, 0), v(p', 0), e);
    NetTriangle(v(q', segments), v(p', segments), v(q, segments), e);
    NetTriangle(v(q, segments), v(p', segments), v(p, segments), e);
    QuadFlips(v(p, 0), v(q, 0), v(q', 0), v(p', 0), e);
    QuadFlips(v(p, segments), v(q, segments), v(q', segments), v(p', segments), e);
  }

  /** The boundary of one cap cell in column s: against the outer wall, across, and against the inner wall. */
  ghost function CapSide(v: Naming, rings: nat, s: nat, r: nat, e: Edge<nat>): int
    requires r < rings
  {
    Arc(v(r, s), v(2 * rings + 1 - r, s), e) - Arc(v(r + 1, s), v(2 * rings - r, s), e)
      - Arc(v(r, s), v(r + 1, s), e) - Arc(v(2 * rings - r, s), v(2 * rings + 1 - r, s), e)
  }

  lemma QuadFlips(p: nat, q: nat, q': nat, p': nat, e: Edge<nat>)
    ensures Arc(q, p, e) == -Arc(p, q, e) && Arc(p', q', e) == -Arc(q', p', e) && Arc(q', q, e) == -Arc(q, q', e)
    ensures Arc(q', p, e) == -Arc(p, q', e) && Arc(p', p, e) == -Arc(p, p', e) && Arc(p', q, e) == -Arc(q, p', e)
  {
  }

  lemma {:induction false} CapsNet(v: Naming, rings: nat, segments: nat, n: nat, e: Edge<nat>)
    requires n <= rings
    ensures NetOf(Caps(v, rings, segments, n), e)
         == CapSides(v, rings, 0, n, e) - CapSides(v, rings, segments, n, e)
  {
    hide Arc, NetOf, CapCell, CapSide, Column;
    NetNone(e);
    NoCapSides(v, rings, 0, e);
    NoCapSides(v, rings, segments, e);
    if n != 0 {
      hide CapSides;
      CapsNet(v, rings, segments, n - 1, e);
      NetSum(Caps(v, rings, segments, n - 1), CapCell(v, rings, segments, n - 1), e);
      CapCellNet(v, rings, segments, n - 1, e);
      CapSidesStep(v, rings, 0, n, e);
      CapSidesStep(v, rings, segments, n, e);
    }
  }

  ghost function CapSides(v: Naming, rings: nat, s: nat, n: nat, e: Edge<nat>): int
    requires n <= rings
  {
    Arc(v(0, s), v(2 * rings + 1, s), e) - Arc(v(n, s), v(2 * rings + 1 - n, s), e)
      - Column(v, s, n, e) - Column(v, s, 2 * rings + 1, e) + Column(v, s, 2 * rings + 1 - n, e)
  }

  lemma NoCapSides(v: Naming, rings: nat, s: nat, e: Edge<nat>)
    ensures CapSides(v, rings, s, 0, e) == 0
  {
  }

  lemma CapSidesStep(v: Naming, rings: nat, s: nat, n: nat, e: Edge<nat>)
    requires 0 < n <= rings
    ensures CapSides(v, rings, s, n, e) == CapSides(v, rings, s, n - 1, e) + CapSide(v, rings, s, n - 1, e)
  {
    hide Arc;
    assert Column(v, s, 2 * rings + 2 - n, e)
        == Column(v, s, 2 * rings + 1 - n, e) + Arc(v(2 * rings + 1 - n, s), v(2 * rings + 2 - n, s), e);
  }

  /** A cap fills the loop along its column. */
  lemma CapFillsLoop(v: Naming, rings: nat, s: nat, e: Edge<nat>)
    requires 1 <= rings
    ensures CapSides(v, rings, s, rings, e) == -Loop(v, rings, s, e)
  {
    hide Arc, Column;
    LastArc(v, rings, s, e);
    ArcFlip(v(0, s), v(2 * rings + 1, s), e);
  }

  lemma {:induction false} SameColumn(v: Naming, s: nat, n: nat, e: Edge<nat>)
    requires forall i :: v(i, s) == v(i, 0)
    ensures Column(v, s, n, e) == Column(v, 0, n, e)
  {
    if n != 0 {
      SameColumn(v, s, n - 1, e);
    }
  }

  lemma TubeNet(v: Naming, rings: nat, segments: nat, fullCircle: bool, e: Edge<nat>)
    requires 1 <= rings
    requires fullCircle ==> forall i :: v(i, segments) == v(i, 0)
    ensures NetOf(TubeIndices(v, rings, segments, fullCircle), e) == 0
  {
    hide Arc, NetOf, Walls, Caps, CapSides, Column;
    WallsNet(v, rings, segments, e);
    if fullCircle {
      assert TubeIndices(v, rings, segments, true) == Walls(v, rings, segments);
      SameColumn(v, segments, 2 * rings + 1, e);
    } else {
      NetSum(Walls(v, rings, segments), Caps(v, rings, segments, rings), e);
      CapsNet(v, rings, segments, rings, e);
      CapFillsLoop(v, rings, 0, e);
      CapFillsLoop(v, rings, segments, e);
    }
  }

  /** Whatever the vertices are called, the tube is closed: by its caps or, on a full circle, when the last
      column is the first one. */
  lemma TubeClosed(v: Naming, rings: nat, segments: nat, fullCircle: bool)
    requires 1 <= rings
    requires fullCircle ==> forall i :: v(i, segments) == v(i, 0)
    ensures Closed(TriangleEdges(TubeIndices(v, rings, segments, fullCircle)))
  {
    hide Closed, Walls, Caps;
    var indices := TubeIndices(v, rings, segments, fullCircle);
    forall e ensures Net(TriangleEdges(indices), e) == 0 {
      TubeNet(v, rings, segments, fullCircle, e);
    }
    ClosedIffNetZero(TriangleEdges(indices));
  }

  // -------- the vertices they name --------

  ghost predicate Related(rel: (nat, nat) -> bool, a: seq<nat>, b: seq<nat>) {
    |a| == |b| && forall k :: 0 <= k < |a| ==> rel(a[k], b[k])
  }

  ghost predicate RelatedNames(rel: (nat, nat) -> bool, v: Naming, w: Naming, rings: nat, segments: nat) {
    forall i: nat, s: nat :: i <= 2 * rings + 1 && s <= segments ==> rel(v(i, s), w(i, s))
  }

  lemma RelatedAppend(rel: (nat, nat) -> bool, a: seq<nat>, b: seq<nat>, c: seq<nat>, d: seq<nat>)
    requires Related(rel, a, b) && Related(rel, c, d)
    ensures Related(rel, a + c, b + d)
  {
  }

  lemma StepRelated(rel: (nat, nat) -> bool, v: Naming, w: Naming, rings: nat, segments: nat, ring: nat, s: nat)
    requires RelatedNames(rel, v, w, rings, segments) && ring <= rings && s <= segments
    ensures Related(rel, OuterStep(v, rings, segments, ring, s), OuterStep(w, rings, segments, ring, s))
    ensures Related(rel, InnerStep(v, rings, segments, ring, s), InnerStep(w, rings, segments, ring, s))
  {
    hide WallStep, RelatedNames, RimCell, BottomCell;
    if ring != rings {
      WallStepRelated(rel, v, w, rings, segments, ring, s);
      WallStepRelated(rel, v, w, rings, segments, rings + 1 + ring, s);
    }
    if s != segments {
      RimRelated(rel, v, w, rings, segments, s);
    }
  }

  lemma RimRelated(rel: (nat, nat) -> bool, v: Naming, w: Naming, rings: nat, segments: nat, s: nat)
    requires RelatedNames(rel, v, w, rings, segments) && s < segments
    ensures Related(rel, RimCell(v, rings, s), RimCell(w, rings, s))
    ensures Related(rel, BottomCell(v, rings, s), BottomCell(w, rings, s))
  {
  }

  lemma WallStepRelated(rel: (nat, nat) -> bool, v: Naming, w: Naming, rings: nat, segments: nat, i: nat, s: nat)
    requires RelatedNames(rel, v, w, rings, segments) && i <= 2 * rings && s <= segments
    ensures Related(rel, WallStep(v, segments, i, s), WallStep(w, segments, i, s))
  {
  }

  lemma {:induction false} RingRelated(rel: (nat, nat) -> bool, v: Naming, w: Naming, rings: nat, segments: nat,
                                       ring: nat, n: nat)
    requires RelatedNames(rel, v, w, rings, segments) && ring <= rings && n <= segments + 1
    ensures Related(rel, OuterRing(v, rings, segments, ring, n), OuterRing(w, rings, segments, ring, n))
    ensures Related(rel, InnerRing(v, rings, segments, ring, n), InnerRing(w, rings, segments, ring, n))
  {
    hide OuterStep, InnerStep, RelatedNames;
    if n != 0 {
      RingRelated(rel, v, w, rings, segments, ring, n - 1);
      StepRelated(rel, v, w, rings, segments, ring, n - 1);
      hide Related;
      RelatedAppend(rel, OuterRing(v, rings, segments, ring, n - 1), OuterRing(w, rings, segments, ring, n - 1),
                    OuterStep(v, rings, segments, ring, n - 1), OuterStep(w, rings, segments, ring, n - 1));
      RelatedAppend(rel, InnerRing(v, rings, segments, ring, n - 1), InnerRing(w, rings, segments, ring, n - 1),
                    InnerStep(v, rings, segments, ring, n - 1), InnerStep(w, rings, segments, ring, n - 1));
    }
  }

  lemma {:induction false} WallsRelated(rel: (nat, nat) -> bool, v: Naming, w: Naming, rings: nat, segments: nat, n: nat)
    requires RelatedNames(rel, v, w, rings, segments) && n <= rings + 1
    ensures Related(rel, Outer(v, rings, segments, n), Outer(w, rings, segments, n))
    ensures Related(rel, Inner(v, rings, segments, n), Inner(w, rings, segments, n))
  {
    hide OuterRing, InnerRing, RelatedNames;
    if n != 0 {
      WallsRelated(rel, v, w, rings, segments, n - 1);
      RingRelated(rel, v, w, rings, segments, n - 1, segments + 1);
      hide Related;
      RelatedAppend(rel, Outer(v, rings, segments, n - 1), Outer(w, rings, segments, n - 1),
                    OuterRing(v, rings, segments, n - 1, segments + 1), OuterRing(w, rings, segments, n - 1, segments + 1));
      RelatedAppend(rel, Inner(v, rings, segments, n - 1), Inner(w, rings, segments, n - 1),
                    InnerRing(v, rings, segments, n - 1, segments + 1), InnerRing(w, rings, segments, n - 1, segments + 1));
    }
  }

  lemma {:induction false} CapsRelated(rel: (nat, nat) -> bool, v: Naming, w: Naming, rings: nat, segments: nat, n: nat)
    requires RelatedNames(rel, v, w, rings, segments) && n <= rings
    ensures Related(rel, Caps(v, rings, segments, n), Caps(w, rings, segments, n))
  {
    if n != 0 {
      CapsRelated(rel, v, w, rings, segments, n - 1);
      assert Related(rel, CapCell(v, rings, segments, n - 1), CapCell(w, rings, segments, n - 1));
      hide CapCell;
    }
  }

  /** What relates the vertices of two namings relates the indices of the two tubes, one by one. */
  lemma TubeRelated(rel: (nat, nat) -> bool, v: Naming, w: Naming, rings: nat, segments: nat, fullCircle: bool)
    requires RelatedNames(rel, v, w, rings, segments)
    ensures Related(rel, TubeIndices(v, rings, segments, fullCircle), TubeIndices(w, rings, segments, fullCircle))
  {
    hide Outer, Inner, Caps, RelatedNames;
    WallsRelated(rel, v, w, rings, segments, rings + 1);
    CapsRelated(rel, v, w, rings, segments, rings);
  }

  lemma GridSteps(segments: nat, i: nat, s: nat)
    ensures Grid(segments)(i + 1, s) == Grid(segments)(i, s) + segments + 1
    ensures Grid(segments)(i, s + 1) == Grid(segments)(i, s) + 1
    ensures Grid(segments)(i, s) == (segments + 1) * i + s
  {
    assert (i + 1) * (segments + 1) == i * (segments + 1) + (segments + 1);
  }

  lemma ProductMonotone(a: nat, b: nat, k: nat)
    requires a <= b
    ensures a * k <= b * k
  {
  }

  lemma GridInRange(segments: nat, i: nat, s: nat, rows: nat)
    requires i < rows && s <= segments
    ensures Grid(segments)(i, s) < Grid(segments)(rows, 0)
  {
    ProductMonotone(i + 1, rows, segments + 1);
    assert (i + 1) * (segments + 1) == i * (segments + 1) + (segments + 1);
    assert Grid(segments)(i, s) == i * (segments + 1) + s;
  }

  lemma GridAdd(segments: nat, a: nat, b: nat, s: nat)
    ensures Grid(segments)(a + b, s) == Grid(segments)(a, 0) + Grid(segments)(b, s)
  {
    assert (a + b) * (segments + 1) == a * (segments + 1) + b * (segments + 1);
  }

  lemma NamesInRange(v: Naming, rings: nat, segments: nat, fullCircle: bool, count: nat)
    requires forall i: nat, s: nat :: i <= 2 * rings + 1 && s <= segments ==> v(i, s) < count
    ensures InRange(TubeIndices(v, rings, segments, fullCircle), count)
  {
    hide TubeIndices;
    var rel := (a: nat, b: nat) => a < count;
    TubeRelated(rel, v, v, rings, segments, fullCircle);
    var indices := TubeIndices(v, rings, segments, fullCircle);
    forall k | 0 <= k < |indices| ensures indices[k] < count {
      assert rel(indices[k], indices[k]);
    }
  }

  lemma TubeSize(rings: nat, segments: nat)
    ensures VertexCount(rings, segments) == 2 * (rings + 1) * (segments + 1) == 2 * Grid(segments)(rings + 1, 0)
  {
  }

  lemma TubeInRange(rings: nat, segments: nat, fullCircle: bool)
    ensures InRange(TubeIndices(Grid(segments), rings, segments, fullCircle), VertexCount(rings, segments))
  {
    hide Grid, TubeIndices;
    var count := Grid(segments)(2 * (rings + 1), 0);
    forall i: nat, s: nat | i <= 2 * rings + 1 && s <= segments ensures Grid(segments)(i, s) < count {
      GridInRange(segments, i, s, 2 * (rings + 1));
    }
    NamesInRange(Grid(segments), rings, segments, fullCircle, count);
    TubeSize(rings, segments);
  }

  /** The last column put back on the first one, as on a full circle. */
  function Welded(segments: nat): Naming {
    (i: nat, s: nat) => Grid(segments)(i, if s == segments then 0 else s)
  }

  lemma WeldedInRange(rings: nat, segments: nat)
    ensures InRange(TubeIndices(Welded(segments), rings, segments, true), VertexCount(rings, segments))
  {
    hide Grid, TubeIndices;
    var count := Grid(segments)(2 * (rings + 1), 0);
    forall i: nat, s: nat | i <= 2 * rings + 1 && s <= segments ensures Welded(segments)(i, s) < count {
      GridInRange(segments, i, if s == segments then 0 else s, 2 * (rings + 1));
    }
    NamesInRange(Welded(segments), rings, segments, true, count);
    TubeSize(rings, segments);
  }

  ghost predicate SeamMeets(vertices: seq<Vec>, rings: nat, segments: nat) {
    forall i: nat :: i <= 2 * rings + 1 ==>
      Point(vertices, Grid(segments)(i, segments)) == Point(vertices, Grid(segments)(i, 0))
  }

  lemma {:induction false} SamePointsSameVolume(vertices: seq<Vec>, a: seq<nat>, b: seq<nat>)
    requires |a| == |b| && |a| % 3 == 0
    requires forall k :: 0 <= k < |a| ==> Point(vertices, a[k]) == Point(vertices, b[k])
    ensures SignedVolume(vertices, a) == SignedVolume(vertices, b)
  {
    hide Det;
    if a != [] {
      var n := |a| - 3;
      SamePointsSameVolume(vertices, a[..n], b[..n]);
    }
  }

  lemma WeldKeepsVolume(vertices: seq<Vec>, rings: nat, segments: nat)
    requires SeamMeets(vertices, rings, segments)
    ensures SignedVolume(vertices, TubeIndices(Grid(segments), rings, segments, true))
         == SignedVolume(vertices, TubeIndices(Welded(segments), rings, segments, true))
  {
    hide TubeIndices, SignedVolume;
    var rel := (a: nat, b: nat) => Point(vertices, a) == Point(vertices, b);
    forall i: nat, s: nat | i <= 2 * rings + 1 && s <= segments
      ensures rel(Grid(segments)(i, s), Welded(segments)(i, s))
    {
    }
    TubeRelated(rel, Grid(segments), Welded(segments), rings, segments, true);
    var a, b := TubeIndices(Grid(segments), rings, segments, true), TubeIndices(Welded(segments), rings, segments, true);
    forall k | 0 <= k < |a| ensures Point(vertices, a[k]) == Point(vertices, b[k]) {
      assert rel(a[k], b[k]);
    }
    SamePointsSameVolume(vertices, a, b);
  }

  lemma SeamMoves(vertices: seq<Vec>, rings: nat, segments: nat, t: Vec)
    requires |vertices| == VertexCount(rings, segments) && SeamMeets(vertices, rings, segments)
    ensures SeamMeets(Translated(vertices, t), rings, segments)
  {
    forall i: nat | i <= 2 * rings + 1
      ensures Point(Translated(vertices, t), Grid(segments)(i, segments))
           == Point(Translated(vertices, t), Grid(segments)(i, 0))
    {
      GridInRange(segments, i, 0, 2 * (rings + 1));
      GridInRange(segments, i, segments, 2 * (rings + 1));
      TubeSize(rings, segments);
      assert Point(vertices, Grid(segments)(i, segments)) == Point(vertices, Grid(segments)(i, 0));
    }
  }

  /** The volume of a tube does not depend on where it is. A tube with caps needs nothing of its vertices; a full
      circle has no caps, and needs its last column of vertices to be where the first one is. */
  lemma TubeVolumeShift(vertices: seq<Vec>, rings: nat, segments: nat, fullCircle: bool, t: Vec)
    requires 1 <= rings && |vertices| == VertexCount(rings, segments)
    requires fullCircle ==> SeamMeets(vertices, rings, segments)
    ensures var indices := TubeIndices(Grid(segments), rings, segments, fullCircle);
      SignedVolume(Translated(vertices, t), indices) == SignedVolume(vertices, indices)
  {
    hide TubeIndices, SignedVolume, Closed, TriangleEdges, Translated, SeamMeets;
    if fullCircle {
      SeamMoves(vertices, rings, segments, t);
      WeldedInRange(rings, segments);
      TubeClosed(Welded(segments), rings, segments, true);
      ClosedVolumeShift(vertices, TubeIndices(Welded(segments), rings, segments, true), t);
      WeldKeepsVolume(vertices, rings, segments);
      WeldKeepsVolume(Translated(vertices, t), rings, segments);
    } else {
      TubeInRange(rings, segments, false);
      TubeClosed(Grid(segments), rings, segments, false);
      ClosedVolumeShift(vertices, TubeIndices(Grid(segments), rings, segments, false), t);
    }
  }

  // The offsets that the source adds to the running vertex index, as names in the grid.
  lemma SourceOffsets(rings: nat, segments: nat, i: nat, s: nat)
    ensures var v, index := Grid(segments), Grid(segments)(i, s);
      && v(i, s + 1) == index + 1
      && v(i + 1, s) == index + segments + 1
      && v(i + 1, s + 1) == index + segments + 2
      && (0 < s ==> v(i + 1, s - 1) == index + segments)
      && (i == 0 ==> v(2 * rings + 1, s) == index + (segments + 1) * ((rings + 1) * 2 - 1))
      && (i == 0 ==> v(2 * rings + 1, s + 1) == index + (segments + 1) * ((rings + 1) * 2 - 1) + 1)
  {
    GridSteps(segments, i, s);
    GridSteps(segments, i + 1, s);
    GridSteps(segments, 2 * rings + 1, s);
    GridSteps(segments, 2 * rings + 1, s + 1);
    GridSteps(segments, 0, s);
    if 0 < s {
      GridSteps(segments, i + 1, s - 1);
    }
    assert (rings + 1) * 2 - 1 == 2 * rings + 1;
  }

  lemma NextColumn(segments: nat, i: nat, s: nat)
    ensures Grid(segments)(i, s + 1) == Grid(segments)(i, s) + 1
  {
  }

  lemma RowEnd(segments: nat, i: nat)
    ensures Grid(segments)(i, segments) + 1 == Grid(segments)(i + 1, 0)
  {
    GridSteps(segments, i, 0);
  }

  lemma FirstIndex(segments: nat)
    ensures Grid(segments)(0, 0) == 0
  {
  }

  /** The vertices of the first n rings of a wall, ring by ring. */
  function Rings(place: (bool, nat, nat) -> Vec, inner: bool, segments: nat, n: nat): seq<Vec> {
    if n == 0 then [] else Rings(place, inner, segments, n - 1) + Ring(place, inner, n - 1, segments + 1)
  }

  function Ring(place: (bool, nat, nat) -> Vec, inner: bool, ring: nat, n: nat): seq<Vec> {
    if n == 0 then [] else Ring(place, inner, ring, n - 1) + [place(inner, ring, n - 1)]
  }

  ghost predicate IsClosedList(indices: seq<nat>) {
    |indices| % 3 == 0 && Closed(TriangleEdges(indices))
  }

  method CreateTube(rings0: int, segments0: int, fullCircle: bool, place: (bool, nat, nat) -> Vec)
    returns (sub: SubMesh, ghost rings: nat, ghost segments: nat)
    ensures fresh(sub) && sub.primitiveType == Triangles
    ensures rings == (if rings0 < 1 then 1 else rings0) && segments == (if segments0 < 3 then 3 else segments0)
    ensures sub.vertices == Rings(place, false, segments, rings + 1) + Rings(place, true, segments, rings + 1)
    ensures sub.indices == TubeIndices(Grid(segments), rings, segments, fullCircle)
    ensures |sub.vertices| == VertexCount(rings, segments)
    ensures InRange(sub.indices, |sub.vertices|)
    ensures !fullCircle ==> IsClosedList(sub.indices)
  {
    hide TubeIndices, Closed, TriangleEdges, Grid;
    var R: nat := if rings0 < 1 then 1 else rings0;
    var S: nat := if segments0 < 3 then 3 else segments0;
    rings, segments := R, S;
    sub := new SubMesh();
    var index := CreateOuterWall(sub, R, S, place);
    CreateInnerWall(sub, R, S, index, place);
    if !fullCircle {
      CreateCaps(sub, R, S);
    }
    FinishTube(R, S, fullCircle);
  }

  lemma FinishTube(rings: nat, segments: nat, fullCircle: bool)
    requires 1 <= rings
    ensures TubeIndices(Grid(segments), rings, segments, fullCircle)
         == Outer(Grid(segments), rings, segments, rings + 1) + Inner(Grid(segments), rings, segments, rings + 1)
          + (if fullCircle then [] else Caps(Grid(segments), rings, segments, rings))
    ensures Grid(segments)(2 * rings + 2, 0) == VertexCount(rings, segments)
    ensures InRange(TubeIndices(Grid(segments), rings, segments, fullCircle), VertexCount(rings, segments))
    ensures !fullCircle ==> Closed(TriangleEdges(TubeIndices(Grid(segments), rings, segments, fullCircle)))
  {
    hide Outer, Inner, Caps, Closed;
    TubeInRange(rings, segments, fullCircle);
    if !fullCircle {
      TubeClosed(Grid(segments), rings, segments, false);
    }
  }

  method CreateOuterWall(sub: SubMesh, R: nat, S: nat, place: (bool, nat, nat) -> Vec) returns (index: nat)
    requires 1 <= R && sub.vertices == [] && sub.indices == []
    modifies sub
    ensures sub.primitiveType == old(sub.primitiveType)
    ensures index == |sub.vertices| == Grid(S)(R + 1, 0)
    ensures sub.vertices == Rings(place, false, S, R + 1)
    ensures sub.indices == Outer(Grid(S), R, S, R + 1)
  {
    hide Grid, OuterRing, Ring;
    FirstIndex(S);
    ghost var v := Grid(S);
    index := 0;
    var ring := 0;
    while ring <= R
      invariant ring <= R + 1 && sub.primitiveType == old(sub.primitiveType)
      invariant index == v(ring, 0) == |sub.vertices|
      invariant sub.vertices == Rings(place, false, S, ring)
      invariant sub.indices == Outer(v, R, S, ring)
    {
      index := CreateOuterRing(sub, R, S, ring, index, place);
      ring := ring + 1;
    }
  }

  method CreateOuterRing(sub: SubMesh, R: nat, S: nat, ring: nat, first: nat, place: (bool, nat, nat) -> Vec)
    returns (index: nat)
    requires 1 <= R && ring <= R && first == |sub.vertices| == Grid(S)(ring, 0)
    modifies sub
    ensures sub.primitiveType == old(sub.primitiveType)
    ensures index == |sub.vertices| == Grid(S)(ring + 1, 0)
    ensures sub.vertices == old(sub.vertices) + Ring(place, false, ring, S + 1)
    ensures sub.indices == old(sub.indices) + OuterRing(Grid(S), R, S, ring, S + 1)
  {
    hide Grid, OuterStep;
    ghost var v := Grid(S);
    index := first;
    var seg := 0;
    while seg <= S
      invariant seg <= S + 1 && sub.primitiveType == old(sub.primitiveType)
      invariant index == v(ring, seg) == |sub.vertices|
      invariant sub.vertices == old(sub.vertices) + Ring(place, false, ring, seg)
      invariant sub.indices == old(sub.indices) + OuterRing(v, R, S, ring, seg)
    {
      OuterVertex(sub, R, S, ring, seg, index, place);
      NextColumn(S, ring, seg);
      index := index + 1;
      seg := seg + 1;
    }
    NextColumn(S, ring, S);
    RowEnd(S, ring);
  }

  /** The body of the outer loop for one vertex. */
  method OuterVertex(sub: SubMesh, R: nat, S: nat, ring: nat, seg: nat, index: nat, place: (bool, nat, nat) -> Vec)
    requires 1 <= R && ring <= R && seg <= S && index == Grid(S)(ring, seg)
    modifies sub
    ensures sub.primitiveType == old(sub.primitiveType)
    ensures sub.vertices == old(sub.vertices) + [place(false, ring, seg)]
    ensures sub.indices == old(sub.indices) + OuterStep(Grid(S), R, S, ring, seg)
  {
    hide Grid, WallStep, RimCell, BottomCell;
    sub.AddVertex(place(false, ring, seg));
    if ring != R {
      WallVertex(sub, S, ring, seg, index);
    } else if seg != S {
      RimVertex(sub, R, S, seg, index);
    }
    if ring == 0 && seg < S {
      BottomVertex(sub, R, S, seg, index);
    }
  }

  method RimVertex(sub: SubMesh, R: nat, S: nat, seg: nat, index: nat)
    requires seg < S && index == Grid(S)(R, seg)
    modifies sub`indices
    ensures sub.indices == old(sub.indices) + RimCell(Grid(S), R, seg)
  {
    SourceOffsets(R, S, R, seg);
    hide Grid;
    sub.AddIndex(index);
    sub.AddIndex(index + S + 1);
    sub.AddIndex(index + 1);
    sub.AddIndex(index + 1);
    sub.AddIndex(index + S + 1);
    sub.AddIndex(index + S + 2);
  }

  method BottomVertex(sub: SubMesh, R: nat, S: nat, seg: nat, index: nat)
    requires seg < S && index == Grid(S)(0, seg)
    modifies sub`indices
    ensures sub.indices == old(sub.indices) + BottomCell(Grid(S), R, seg)
  {
    SourceOffsets(R, S, 0, seg);
    hide Grid;
    var below := index + (S + 1) * ((R + 1) * 2 - 1);
    sub.AddIndex(index + 1);
    sub.AddIndex(below);
    sub.AddIndex(index);
    sub.AddIndex(below + 1);
    sub.AddIndex(below);
    sub.AddIndex(index + 1);
  }

  method WallVertex(sub: SubMesh, S: nat, row: nat, seg: nat, index: nat)
    requires seg <= S && index == Grid(S)(row, seg)
    modifies sub`indices
    ensures sub.indices == old(sub.indices) + WallStep(Grid(S), S, row, seg)
  {
    SourceOffsets(0, S, row, seg);
    ghost var v := Grid(S);
    hide Grid;
    if seg != 0 {
      sub.AddIndex(index + S + 1);
      sub.AddIndex(index);
      sub.AddIndex(index + S);
      assert sub.indices == old(sub.indices) + [v(row + 1, seg), v(row, seg), v(row + 1, seg - 1)];
    }
    if seg != S {
      label upper:
      sub.AddIndex(index + S + 1);
      sub.AddIndex(index + 1);
      sub.AddIndex(index);
      assert sub.indices == old@upper(sub.indices) + LowerTriangle(v, row, seg);
    }
  }

  method CreateInnerWall(sub: SubMesh, R: nat, S: nat, first: nat, place: (bool, nat, nat) -> Vec)
    requires first == |sub.vertices| == Grid(S)(R + 1, 0)
    modifies sub
    ensures sub.primitiveType == old(sub.primitiveType)
    ensures |sub.vertices| == Grid(S)(2 * R + 2, 0)
    ensures sub.vertices == old(sub.vertices) + Rings(place, true, S, R + 1)
    ensures sub.indices == old(sub.indices) + Inner(Grid(S), R, S, R + 1)
  {
    hide Grid, InnerRing, Ring;
    ghost var v := Grid(S);
    var index := first;
    var ring := 0;
    while ring <= R
      invariant ring <= R + 1 && sub.primitiveType == old(sub.primitiveType)
      invariant index == v(R + 1 + ring, 0) == |sub.vertices|
      invariant sub.vertices == old(sub.vertices) + Rings(place, true, S, ring)
      invariant sub.indices == old(sub.indices) + Inner(v, R, S, ring)
    {
      index := CreateInnerRing(sub, R, S, ring, index, place);
      ring := ring + 1;
    }
  }

  method CreateInnerRing(sub: SubMesh, R: nat, S: nat, ring: nat, first: nat, place: (bool, nat, nat) -> Vec)
    returns (index: nat)
    requires ring <= R && first == |sub.vertices| == Grid(S)(R + 1 + ring, 0)
    modifies sub
    ensures sub.primitiveType == old(sub.primitiveType)
    ensures index == |sub.vertices| == Grid(S)(R + 1 + ring + 1, 0)
    ensures sub.vertices == old(sub.vertices) + Ring(place, true, ring, S + 1)
    ensures sub.indices == old(sub.indices) + InnerRing(Grid(S), R, S, ring, S + 1)
  {
    hide Grid, WallStep, InnerStep;
    ghost var v := Grid(S);
    index := first;
    var seg := 0;
    while seg <= S
      invariant seg <= S + 1 && sub.primitiveType == old(sub.primitiveType)
      invariant index == v(R + 1 + ring, seg) == |sub.vertices|
      invariant sub.vertices == old(sub.vertices) + Ring(place, true, ring, seg)
      invariant sub.indices == old(sub.indices) + InnerRing(v, R, S, ring, seg)
    {
      InnerVertex(sub, R, S, ring, seg, index, place);
      NextColumn(S, R + 1 + ring, seg);
      index := index + 1;
      seg := seg + 1;
    }
    NextColumn(S, R + 1 + ring, S);
    RowEnd(S, R + 1 + ring);
  }

  /** The body of the inner loop for one vertex. */
  method InnerVertex(sub: SubMesh, R: nat, S: nat, ring: nat, seg: nat, index: nat, place: (bool, nat, nat) -> Vec)
    requires ring <= R && seg <= S && index == Grid(S)(R + 1 + ring, seg)
    modifies sub
    ensures sub.primitiveType == old(sub.primitiveType)
    ensures sub.vertices == old(sub.vertices) + [place(true, ring, seg)]
    ensures sub.indices == old(sub.indices) + InnerStep(Grid(S), R, S, ring, seg)
  {
    hide Grid, WallStep;
    sub.AddVertex(place(true, ring, seg));
    if ring != R {
      WallVertex(sub, S, R + 1 + ring, seg, index);
    }
  }

  method CreateCaps(sub: SubMesh, R: nat, S: nat)
    modifies sub`indices
    ensures sub.indices == old(sub.indices) + Caps(Grid(S), R, S, R)
  {
    hide CapCell;
    for ring := 0 to R
      invariant sub.indices == old(sub.indices) + Caps(Grid(S), R, S, ring)
    {
      CreateCapCell(sub, R, S, ring);
    }
  }

  method CreateCapCell(sub: SubMesh, R: nat, S: nat, ring: nat)
    requires ring < R
    modifies sub`indices
    ensures sub.indices == old(sub.indices) + CapCell(Grid(S), R, S, ring)
  {
    var p, q := (S + 1) * ring, (S + 1) * (ring + 1);
    var q', p' := (S + 1) * ((R + 1) * 2 - 2 - ring), (S + 1) * ((R + 1) * 2 - 1 - ring);
    hide Grid;
    CapOffsets(R, S, ring);
    // Close beginning
    AddTriangle(sub, q, p, q');
    AddTriangle(sub, q', p, p');
    // Close end
    AddTriangle(sub, q' + S, p' + S, q + S);
    AddTriangle(sub, q + S, p' + S, p + S);
  }

  method AddTriangle(sub: SubMesh, a: nat, b: nat, c: nat)
    modifies sub`indices
    ensures sub.indices == old(sub.indices) + [a, b, c]
  {
    sub.AddIndex(a);
    sub.AddIndex(b);
    sub.AddIndex(c);
  }

  lemma CapOffsets(R: nat, S: nat, r: nat)
    requires r < R
    ensures var v := Grid(S);
      && v(r, 0) == (S + 1) * r && v(r, S) == (S + 1) * r + S
      && v(r + 1, 0) == (S + 1) * (r + 1) && v(r + 1, S) == (S + 1) * (r + 1) + S
      && v(2 * R - r, 0) == (S + 1) * ((R + 1) * 2 - 2 - r)
      && v(2 * R - r, S) == (S + 1) * ((R + 1) * 2 - 2 - r) + S
      && v(2 * R + 1 - r, 0) == (S + 1) * ((R + 1) * 2 - 1 - r)
      && v(2 * R + 1 - r, S) == (S + 1) * ((R + 1) * 2 - 1 - r) + S
  {
    hide Grid;
    GridSteps(S, r, 0);
    GridSteps(S, r, S);
    GridSteps(S, r + 1, 0);
    GridSteps(S, r + 1, S);
    assert (R + 1) * 2 - 2 - r == 2 * R - r && (R + 1) * 2 - 1 - r == 2 * R + 1 - r;
    GridSteps(S, 2 * R - r, 0);
    GridSteps(S, 2 * R - r, S);
    GridSteps(S, 2 * R + 1 - r, 0);
    GridSteps(S, 2 * R + 1 - r, S);
  }

  lemma {:induction false} RingAt(place: (bool, nat, nat) -> Vec, inner: bool, ring: nat, n: nat, s: nat)
    requires s < n
    ensures |Ring(place, inner, ring, n)| == n && Ring(place, inner, ring, n)[s] == place(inner, ring, s)
  {
    if s < n - 1 {
      RingAt(place, inner, ring, n - 1, s);
    } else if 1 < n {
      RingAt(place, inner, ring, n - 1, 0);
    }
  }

  lemma {:induction false} RingsAt(place: (bool, nat, nat) -> Vec, inner: bool, segments: nat, n: nat, i: nat, s: nat)
    requires i < n && s <= segments
    ensures |Rings(place, inner, segments, n)| == Grid(segments)(n, 0)
    ensures Grid(segments)(i, s) < Grid(segments)(n, 0)
    ensures Rings(place, inner, segments, n)[Grid(segments)(i, s)] == place(inner, i, s)
  {
    hide Ring, Grid;
    FirstIndex(segments);
    RingAt(place, inner, n - 1, segments + 1, s);
    RowEnd(segments, n - 1);
    GridSteps(segments, n - 1, segments);
    GridSteps(segments, n - 1, 0);
    GridSteps(segments, n - 1, s);
    if 1 < n {
      RingsAt(place, inner, segments, n - 1, if i < n - 1 then i else 0, s);
    }
  }

  lemma PlacedAt(place: (bool, nat, nat) -> Vec, rings: nat, segments: nat, i: nat, s: nat)
    requires i <= 2 * rings + 1 && s <= segments
    ensures var vertices := Rings(place, false, segments, rings + 1) + Rings(place, true, segments, rings + 1);
      && Grid(segments)(i, s) < |vertices| == VertexCount(rings, segments)
      && vertices[Grid(segments)(i, s)] == if i <= rings then place(false, i, s) else place(true, i - rings - 1, s)
  {
    hide Rings;
    TubeSize(rings, segments);
    hide Grid;
    RingsAt(place, false, segments, rings + 1, if i <= rings then i else 0, s);
    RingsAt(place, true, segments, rings + 1, if i <= rings then 0 else i - rings - 1, s);
    if rings < i {
      GridAdd(segments, rings + 1, i - rings - 1, s);
    }
  }

  /** A full circle whose first and last columns are put in the same places meets at its seam, so its volume does
      not depend on where it is; a tube with caps needs no condition. */
  lemma CreatedTubeVolume(place: (bool, nat, nat) -> Vec, rings: nat, segments: nat, fullCircle: bool, t: Vec)
    requires 1 <= rings
    requires fullCircle ==> forall inner, ring :: place(inner, ring, segments) == place(inner, ring, 0)
    ensures var vertices := Rings(place, false, segments, rings + 1) + Rings(place, true, segments, rings + 1);
      var indices := TubeIndices(Grid(segments), rings, segments, fullCircle);
      SignedVolume(Translated(vertices, t), indices) == SignedVolume(vertices, indices)
  {
    hide Grid, Rings, TubeIndices, SignedVolume, Translated;
    var vertices := Rings(place, false, segments, rings + 1) + Rings(place, true, segments, rings + 1);
    PlacedAt(place, rings, segments, 0, 0);
    if fullCircle {
      forall i: nat | i <= 2 * rings + 1
        ensures Point(vertices, Grid(segments)(i, segments)) == Point(vertices, Grid(segments)(i, 0))
      {
        PlacedAt(place, rings, segments, i, 0);
        PlacedAt(place, rings, segments, i, segments);
      }
    }
    TubeVolumeShift(vertices, rings, segments, fullCircle, t);
  }
}
