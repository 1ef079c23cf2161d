/** The volume of a tube (graphics/src/MeshManager.cc, CreateTube): its height times the area of its cross-section. */
module TubeVolumes {
  import opened Chains
  import opened Vectors
  import opened SubMeshes
  import opened Tubes

  /** A point of the cross-section. */
  datatype Flat = Flat(x: real, y: real)

  function Lift(p: Flat, z: real): Vec {
    Vec(p.x, p.y, z)
  }

  /** Twice the signed area of the triangle over an edge with its apex at the origin. */
  function Turn(a: Flat, b: Flat): real {
    a.x * b.y - a.y * b.x
  }

  lemma TurnFlips(a: Flat, b: Flat)
    ensures Turn(b, a) == -Turn(a, b)
  {
  }

  // -------- single triangles --------

  /** A triangle with two corners above each other. */
  lemma UprightDet(a: Flat, c: Flat, z: real, top: real, w: real)
    ensures Det(Lift(a, top), Lift(a, z), Lift(c, w)) == (top - z) * Turn(a, c)
    ensures Det(Lift(a, top), Lift(c, w), Lift(a, z)) == -(top - z) * Turn(a, c)
  {
    DetMonomials(Lift(a, top), Lift(a, z), Lift(c, w));
    DetMonomials(Lift(a, top), Lift(c, w), Lift(a, z));
    Difference(top, z, Turn(a, c));
    Difference(a.x * c.y, a.y * c.x, top);
    Difference(a.x * c.y, a.y * c.x, z);
    hide Det;
  }

  /** A triangle at one height. */
  lemma LevelDet(a: Flat, b: Flat, c: Flat, z: real)
    ensures Det(Lift(a, z), Lift(b, z), Lift(c, z)) == z * (Turn(a, b) + Turn(b, c) + Turn(c, a))
  {
    DetMonomials(Lift(a, z), Lift(b, z), Lift(c, z));
    Distribute3(Turn(a, b), Turn(b, c), Turn(c, a), z);
    Difference(a.x * b.y, a.y * b.x, z);
    Difference(b.x * c.y, b.y * c.x, z);
    Difference(c.x * a.y, c.y * a.x, z);
    hide Det;
  }

  // -------- sums over triangles --------

  ghost function DetOf(vertices: seq<Vec>): (nat, nat, nat) -> real {
    (a: nat, b: nat, c: nat) => Det(Point(vertices, a), Point(vertices, b), Point(vertices, c))
  }

  /** Six times the signed volume. */
  ghost function Sum(vertices: seq<Vec>, indices: seq<nat>): real
    requires |indices| % 3 == 0
  {
    TriangleSum(DetOf(vertices), indices)
  }

  lemma {:induction false} SumIsVolume(vertices: seq<Vec>, indices: seq<nat>)
    requires |indices| % 3 == 0
    ensures SignedVolume(vertices, indices) * 6.0 == Sum(vertices, indices)
  {
    hide Det;
    if indices != [] {
      SumIsVolume(vertices, indices[..|indices| - 3]);
    }
  }

  lemma {:induction false} SumAppend(vertices: seq<Vec>, a: seq<nat>, b: seq<nat>)
    requires |a| % 3 == 0 && |b| % 3 == 0
    ensures Sum(vertices, a + b) == Sum(vertices, a) + Sum(vertices, b)
  {
    hide Det;
    if b == [] {
      assert a + b == a;
    } else {
      var n := |b| - 3;
      SumAppend(vertices, a, b[..n]);
      assert (a + b)[..|a + b| - 3] == a + b[..n];
    }
  }

  lemma SumOne(vertices: seq<Vec>, a: nat, b: nat, c: nat)
    ensures Sum(vertices, [a, b, c]) == Det(Point(vertices, a), Point(vertices, b), Point(vertices, c))
  {
    hide Det;
    var corners := [a, b, c];
    assert corners[..|corners| - 3] == [];
    assert Sum(vertices, corners) == Sum(vertices, []) + DetOf(vertices)(a, b, c);
  }

  lemma SumNone(vertices: seq<Vec>)
    ensures Sum(vertices, []) == 0.0
  {
  }

  // -------- the shape --------

  /** The cross-section and the heights of a tube: the outer and the inner line, and the height of each ring. */
  datatype Profile = Profile(outer: nat -> Flat, inner: nat -> Flat, height: nat -> real)

  /** The vertices stand over the cross-section: the outer rings from the bottom to the top, the inner ones back. */
  ghost predicate Stands(vertices: seq<Vec>, v: Naming, rings: nat, segments: nat, p: Profile) {
    forall i: nat, s: nat :: i <= 2 * rings + 1 && s <= segments ==> StandsAt(vertices, v, rings, p, i, s)
  }

  ghost predicate StandsAt(vertices: seq<Vec>, v: Naming, rings: nat, p: Profile, i: nat, s: nat)
    requires i <= 2 * rings + 1
  {
    Point(vertices, v(i, s)) ==
      if i <= rings then Lift(p.outer(s), p.height(i)) else Lift(p.inner(s), p.height(2 * rings + 1 - i))
  }

  /** Twice the area under the first n edges of a line. */
  ghost function Under(line: nat -> Flat, n: nat): real {
    if n == 0 then 0.0 else Under(line, n - 1) + Turn(line(n - 1), line(n))
  }

  /** Twice the signed area of the cross-section: along the outer line, over to the inner one, and back along that. */
  ghost function Section(outer: nat -> Flat, inner: nat -> Flat, n: nat): real {
    Under(outer, n) + Turn(outer(n), inner(n)) - Under(inner, n) + Turn(inner(0), outer(0))
  }

  // -------- one cell --------

  lemma SumTwo(vertices: seq<Vec>, a: nat, b: nat, c: nat, d: nat, e: nat, f: nat)
    ensures Sum(vertices, [a, b, c] + [d, e, f]) ==
            Det(Point(vertices, a), Point(vertices, b), Point(vertices, c)) +
            Det(Point(vertices, d), Point(vertices, e), Point(vertices, f))
  {
    SumAppend(vertices, [a, b, c], [d, e, f]);
    SumOne(vertices, a, b, c);
    SumOne(vertices, d, e, f);
    hide Det, Sum;
  }

  /** The edges of a line at a column: the one before it and the one after, twice the area under each. */
  ghost function Edges(line: nat -> Flat, segments: nat, s: nat): real {
    (if s != 0 then Turn(line(s - 1), line(s)) else 0.0) + (if s != segments then Turn(line(s), line(s + 1)) else 0.0)
  }

  /** The step of a wall at column s between heights z and top: half of the cell before it and half of the one after. */
  lemma WallSum(vertices: seq<Vec>, v: Naming, segments: nat, i: nat, s: nat, line: nat -> Flat, z: real, top: real)
    requires forall t: nat :: t <= segments ==>
      Point(vertices, v(i, t)) == Lift(line(t), z) && Point(vertices, v(i + 1, t)) == Lift(line(t), top)
    requires s <= segments
    ensures Sum(vertices, WallStep(v, segments, i, s)) == -(top - z) * Edges(line, segments, s)
  {
    hide Det, Turn, Sum;
    SumNone(vertices);
    Distribute2(if s != 0 then Turn(line(s - 1), line(s)) else 0.0,
                if s != segments then Turn(line(s), line(s + 1)) else 0.0, -(top - z));
    var before := if s != 0 then [v(i + 1, s), v(i, s), v(i + 1, s - 1)] else [];
    var behind := if s != segments then LowerTriangle(v, i, s) else [];
    SumAppend(vertices, before, behind);
    if s != 0 {
      SumOne(vertices, v(i + 1, s), v(i, s), v(i + 1, s - 1));
      UprightDet(line(s), line(s - 1), z, top, top);
      TurnFlips(line(s - 1), line(s));
      NegatedProduct(top - z, Turn(line(s - 1), line(s)));
    }
    if s != segments {
      SumOne(vertices, v(i + 1, s), v(i, s + 1), v(i, s));
      UprightDet(line(s), line(s + 1), z, top, z);
    }
  }

  lemma NegatedProduct(a: real, b: real)
    ensures a * -b == -a * b == -(a * b)
  {
  }

  /** Twice the area of one cell between the lines, as the rims cut it. */
  ghost function Cell(p: Profile, s: nat): real {
    Turn(p.outer(s), p.outer(s + 1)) - Turn(p.inner(s), p.inner(s + 1))
      - Turn(p.outer(s), p.inner(s)) + Turn(p.outer(s + 1), p.inner(s + 1))
  }

  lemma RimSum(vertices: seq<Vec>, v: Naming, rings: nat, segments: nat, p: Profile, s: nat)
    requires Stands(vertices, v, rings, segments, p) && s < segments
    ensures Sum(vertices, RimCell(v, rings, s)) == -p.height(rings) * Cell(p, s)
  {
    hide Det, Turn, Sum;
    var a, b, c, d, z := p.outer(s), p.inner(s), p.outer(s + 1), p.inner(s + 1), p.height(rings);
    assert StandsAt(vertices, v, rings, p, rings, s) && StandsAt(vertices, v, rings, p, rings + 1, s);
    assert StandsAt(vertices, v, rings, p, rings, s + 1) && StandsAt(vertices, v, rings, p, rings + 1, s + 1);
    SumTwo(vertices, v(rings, s), v(rings + 1, s), v(rings, s + 1), v(rings, s + 1), v(rings + 1, s), v(rings + 1, s + 1));
    LevelDet(a, b, c, z);
    LevelDet(c, b, d, z);
    TurnFlips(a, c);
    TurnFlips(b, c);
    TurnFlips(c, d);
    Distribute2(Turn(a, b) + Turn(b, c) + Turn(c, a), Turn(c, b) + Turn(b, d) + Turn(d, c), z);
    NegatedProduct(z, Cell(p, s));
  }

  lemma BottomSum(vertices: seq<Vec>, v: Naming, rings: nat, segments: nat, p: Profile, s: nat)
    requires Stands(vertices, v, rings, segments, p) && s < segments
    ensures Sum(vertices, BottomCell(v, rings, s)) == p.height(0) * Cell(p, s)
  {
    hide Det, Turn, Sum;
    var last := 2 * rings + 1;
    var a, b, c, d, z := p.outer(s), p.inner(s), p.outer(s + 1), p.inner(s + 1), p.height(0);
    assert StandsAt(vertices, v, rings, p, 0, s) && StandsAt(vertices, v, rings, p, last, s);
    assert StandsAt(vertices, v, rings, p, 0, s + 1) && StandsAt(vertices, v, rings, p, last, s + 1);
    SumTwo(vertices, v(0, s + 1), v(last, s), v(0, s), v(last, s + 1), v(last, s), v(0, s + 1));
    LevelDet(c, b, a, z);
    LevelDet(d, b, c, z);
    TurnFlips(a, b);
    TurnFlips(b, c);
    TurnFlips(b, d);
    TurnFlips(c, d);
    TurnFlips(a, c);
    Distribute2(Turn(c, b) + Turn(b, a) + Turn(a, c), Turn(d, b) + Turn(b, c) + Turn(c, d), z);
  }

  /** The half of a cap cell in the first column: i and j are on the outer wall, and i' and j' on the inner one. */
  lemma FirstHalf(vertices: seq<Vec>, i: nat, j: nat, i': nat, j': nat, a: Flat, b: Flat, z: real, top: real)
    requires Point(vertices, i) == Lift(a, z) && Point(vertices, j) == Lift(a, top)
    requires Point(vertices, i') == Lift(b, z) && Point(vertices, j') == Lift(b, top)
    ensures Sum(vertices, [j, i, j'] + [j', i, i']) == 2.0 * ((top - z) * Turn(a, b))
  {
    hide Det, Turn, Sum, Lift;
    SumTwo(vertices, j, i, j', j', i, i');
    UprightDet(a, b, z, top, top);
    UprightDet(b, a, z, top, z);
    TurnFlips(a, b);
    NegatedProduct(top - z, Turn(a, b));
  }

  /** The half in the last column. */
  lemma LastHalf(vertices: seq<Vec>, i: nat, j: nat, i': nat, j': nat, a: Flat, b: Flat, z: real, top: real)
    requires Point(vertices, i) == Lift(a, z) && Point(vertices, j) == Lift(a, top)
    requires Point(vertices, i') == Lift(b, z) && Point(vertices, j') == Lift(b, top)
    ensures Sum(vertices, [j', i', j] + [j, i', i]) == -2.0 * ((top - z) * Turn(a, b))
  {
    hide Det, Turn, Sum, Lift;
    SumTwo(vertices, j', i', j, j, i', i);
    UprightDet(b, a, z, top, top);
    UprightDet(a, b, z, top, z);
    TurnFlips(a, b);
    NegatedProduct(top - z, Turn(a, b));
  }

  lemma CapSum(vertices: seq<Vec>, v: Naming, rings: nat, segments: nat, p: Profile, r: nat)
    requires Stands(vertices, v, rings, segments, p) && r < rings
    ensures Sum(vertices, CapCell(v, rings, segments, r)) ==
      2.0 * ((p.height(r + 1) - p.height(r)) *
             (Turn(p.outer(0), p.inner(0)) - Turn(p.outer(segments), p.inner(segments))))
  {
    hide Det, Turn, Sum;
    var i, j, i', j' := r, r + 1, 2 * rings + 1 - r, 2 * rings - r;
    var z, top := p.height(r), p.height(r + 1);
    var a, b, c, d := p.outer(0), p.inner(0), p.outer(segments), p.inner(segments);
    assert StandsAt(vertices, v, rings, p, i, 0) && StandsAt(vertices, v, rings, p, j, 0);
    assert StandsAt(vertices, v, rings, p, i', 0) && StandsAt(vertices, v, rings, p, j', 0);
    assert StandsAt(vertices, v, rings, p, i, segments) && StandsAt(vertices, v, rings, p, j, segments);
    assert StandsAt(vertices, v, rings, p, i', segments) && StandsAt(vertices, v, rings, p, j', segments);
    FirstHalf(vertices, v(i, 0), v(j, 0), v(i', 0), v(j', 0), a, b, z, top);
    LastHalf(vertices, v(i, segments), v(j, segments), v(i', segments), v(j', segments), c, d, z, top);
    CapInHalves(vertices, v, rings, segments, r);
    Difference(Turn(a, b), Turn(c, d), top - z);
  }

  lemma CapInHalves(vertices: seq<Vec>, v: Naming, rings: nat, segments: nat, r: nat)
    requires r < rings
    ensures
      var i, j, i', j' := r, r + 1, 2 * rings + 1 - r, 2 * rings - r;
      Sum(vertices, CapCell(v, rings, segments, r)) ==
        Sum(vertices, [v(j, 0), v(i, 0), v(j', 0)] + [v(j', 0), v(i, 0), v(i', 0)]) +
        Sum(vertices, [v(j', segments), v(i', segments), v(j, segments)] +
                      [v(j, segments), v(i', segments), v(i, segments)])
  {
    hide Sum;
    var i, j, i', j' := r, r + 1, 2 * rings + 1 - r, 2 * rings - r;
    var start := [v(j, 0), v(i, 0), v(j', 0)] + [v(j', 0), v(i, 0), v(i', 0)];
    var end := [v(j', segments), v(i', segments), v(j, segments)] + [v(j, segments), v(i', segments), v(i, segments)];
    assert CapCell(v, rings, segments, r) == start + end;
    SumAppend(vertices, start, end);
  }

  // -------- rings --------

  ghost function Cells(p: Profile, n: nat): real {
    if n == 0 then 0.0 else Cells(p, n - 1) + Cell(p, n - 1)
  }

  /** The rims cover the cross-section. */
  lemma {:induction false} CellsAreSection(p: Profile, n: nat)
    ensures Cells(p, n) == Section(p.outer, p.inner, n)
  {
    hide Turn;
    TurnFlips(p.outer(0), p.inner(0));
    if n > 0 {
      CellsAreSection(p, n - 1);
    }
  }

  /** The edges that the first n steps of a ring have counted: those before each of them, and those after. */
  ghost function Counted(line: nat -> Flat, segments: nat, n: nat): real {
    Under(line, if n == 0 then 0 else n - 1) + Under(line, if n <= segments then n else segments)
  }

  lemma CountedNext(line: nat -> Flat, segments: nat, s: nat, h: real)
    requires s <= segments
    ensures h * Counted(line, segments, s + 1) == h * Counted(line, segments, s) + h * Edges(line, segments, s)
  {
    hide Turn;
    assert Counted(line, segments, s + 1) == Counted(line, segments, s) + Edges(line, segments, s);
    Distribute2(Counted(line, segments, s), Edges(line, segments, s), h);
  }

  lemma OuterWallAt(vertices: seq<Vec>, v: Naming, rings: nat, segments: nat, p: Profile, i: nat, s: nat)
    requires Stands(vertices, v, rings, segments, p) && s <= segments && i < rings
    ensures
      var h := p.height(i + 1) - p.height(i);
      Sum(vertices, WallStep(v, segments, i, s)) ==
        -h * Edges(p.outer, segments, s)
  {
    hide Turn, Sum;
    var z, top := p.height(i), p.height(i + 1);
    forall t: nat | t <= segments
      ensures Point(vertices, v(i, t)) == Lift(p.outer(t), z) && Point(vertices, v(i + 1, t)) == Lift(p.outer(t), top)
    {
      assert StandsAt(vertices, v, rings, p, i, t) && StandsAt(vertices, v, rings, p, i + 1, t);
    }
    WallSum(vertices, v, segments, i, s, p.outer, z, top);
  }

  lemma InnerWallAt(vertices: seq<Vec>, v: Naming, rings: nat, segments: nat, p: Profile, ring: nat, s: nat)
    requires Stands(vertices, v, rings, segments, p) && s <= segments && ring < rings
    ensures
      var h := p.height(rings - ring - 1) - p.height(rings - ring);
      Sum(vertices, WallStep(v, segments, rings + 1 + ring, s)) ==
        -h * Edges(p.inner, segments, s)
  {
    hide Turn, Sum;
    var i, z, top := rings + 1 + ring, p.height(rings - ring), p.height(rings - ring - 1);
    assert 2 * rings + 1 - i == rings - ring && 2 * rings + 1 - (i + 1) == rings - ring - 1;
    forall t: nat | t <= segments
      ensures Point(vertices, v(i, t)) == Lift(p.inner(t), z) && Point(vertices, v(i + 1, t)) == Lift(p.inner(t), top)
    {
      assert StandsAt(vertices, v, rings, p, i, t) && StandsAt(vertices, v, rings, p, i + 1, t);
    }
    WallSum(vertices, v, segments, i, s, p.inner, z, top);
  }

  lemma {:induction false} InnerRingSum(vertices: seq<Vec>, v: Naming, rings: nat, segments: nat, p: Profile,
                                        ring: nat, n: nat)
    requires Stands(vertices, v, rings, segments, p) && ring < rings && n <= segments + 1
    ensures
      var h := p.height(rings - ring - 1) - p.height(rings - ring);
      Sum(vertices, InnerRing(v, rings, segments, ring, n)) == -h * Counted(p.inner, segments, n)
  {
    hide Sum, Stands, WallStep, Edges;
    var h := p.height(rings - ring - 1) - p.height(rings - ring);
    SumNone(vertices);
    if n > 0 {
      InnerRingSum(vertices, v, rings, segments, p, ring, n - 1);
      SumAppend(vertices, InnerRing(v, rings, segments, ring, n - 1), InnerStep(v, rings, segments, ring, n - 1));
      InnerWallAt(vertices, v, rings, segments, p, ring, n - 1);
      CountedNext(p.inner, segments, n - 1, -h);
      hide Counted;
    }
  }

  /** What the rims of a ring add: the top one below, the bottom one above. */
  ghost function RimOf(p: Profile, rings: nat, ring: nat): real {
    (if ring == 0 then p.height(0) else 0.0) - (if ring == rings then p.height(rings) else 0.0)
  }

  lemma CellSizes(v: Naming, rings: nat, s: nat)
    ensures |RimCell(v, rings, s)| == |BottomCell(v, rings, s)| == 6
  {
  }

  lemma CellsNext(p: Profile, segments: nat, s: nat, rim: real)
    requires s <= segments
    ensures rim * Cells(p, if s + 1 <= segments then s + 1 else segments) ==
            rim * Cells(p, s) + (if s < segments then rim * Cell(p, s) else 0.0)
  {
    hide Cell;
    if s < segments {
      Distribute2(Cells(p, s), Cell(p, s), rim);
    }
  }

  /** What the first n steps of an outer ring add. */
  ghost function RingPart(p: Profile, rings: nat, segments: nat, ring: nat, n: nat): real {
    var h := if ring < rings then p.height(ring + 1) - p.height(ring) else 0.0;
    -h * Counted(p.outer, segments, n) + RimOf(p, rings, ring) * Cells(p, if n <= segments then n else segments)
  }

  /** And what one step adds. */
  ghost function StepPart(p: Profile, rings: nat, segments: nat, ring: nat, s: nat): real {
    var h := if ring < rings then p.height(ring + 1) - p.height(ring) else 0.0;
    -h * Edges(p.outer, segments, s) + (if s < segments then RimOf(p, rings, ring) * Cell(p, s) else 0.0)
  }

  lemma OuterStepSum(vertices: seq<Vec>, v: Naming, rings: nat, segments: nat, p: Profile, ring: nat, s: nat)
    requires Stands(vertices, v, rings, segments, p) && 1 <= rings && ring <= rings && s <= segments
    ensures Sum(vertices, OuterStep(v, rings, segments, ring, s)) == StepPart(p, rings, segments, ring, s)
  {
    hide Sum, Stands, WallStep, RimCell, BottomCell, Turn, Cell, Edges;
    SumNone(vertices);
    CellSizes(v, rings, s);
    var wall := if ring != rings then WallStep(v, segments, ring, s) else if s != segments then RimCell(v, rings, s) else [];
    var bottom := if ring == 0 && s < segments then BottomCell(v, rings, s) else [];
    SumAppend(vertices, wall, bottom);
    if ring != rings {
      OuterWallAt(vertices, v, rings, segments, p, ring, s);
    } else if s != segments {
      RimSum(vertices, v, rings, segments, p, s);
    }
    if ring == 0 && s < segments {
      BottomSum(vertices, v, rings, segments, p, s);
    }
  }

  lemma NoRingPart(p: Profile, rings: nat, segments: nat, ring: nat)
    ensures RingPart(p, rings, segments, ring, 0) == 0.0
  {
    assert Counted(p.outer, segments, 0) == 0.0 && Cells(p, 0) == 0.0;
    hide RimOf, Counted, Cells;
  }

  lemma RingPartNext(p: Profile, rings: nat, segments: nat, ring: nat, s: nat)
    requires s <= segments
    ensures RingPart(p, rings, segments, ring, s + 1) ==
            RingPart(p, rings, segments, ring, s) + StepPart(p, rings, segments, ring, s)
  {
    hide RimOf, Edges, Cell, Counted, Cells;
    var h := if ring < rings then p.height(ring + 1) - p.height(ring) else 0.0;
    CountedNext(p.outer, segments, s, -h);
    CellsNext(p, segments, s, RimOf(p, rings, ring));
  }

  lemma {:induction false} OuterRingSum(vertices: seq<Vec>, v: Naming, rings: nat, segments: nat, p: Profile,
                                        ring: nat, n: nat)
    requires Stands(vertices, v, rings, segments, p) && 1 <= rings && ring <= rings && n <= segments + 1
    ensures Sum(vertices, OuterRing(v, rings, segments, ring, n)) == RingPart(p, rings, segments, ring, n)
  {
    hide Sum, Stands, OuterStep, RingPart, StepPart;
    SumNone(vertices);
    if n == 0 {
      NoRingPart(p, rings, segments, ring);
    } else {
      RingPartNext(p, rings, segments, ring, n - 1);
      OuterRingSum(vertices, v, rings, segments, p, ring, n - 1);
      SumAppend(vertices, OuterRing(v, rings, segments, ring, n - 1), OuterStep(v, rings, segments, ring, n - 1));
      OuterStepSum(vertices, v, rings, segments, p, ring, n - 1);
    }
  }

  // -------- the whole tube --------

  lemma RingCounted(line: nat -> Flat, segments: nat)
    ensures Counted(line, segments, segments + 1) == 2.0 * Under(line, segments)
  {
    hide Under;
  }

  lemma HeightsAdd(a: real, b: real, c: real, u: real)
    ensures -(b - a) * (2.0 * u) - (c - b) * (2.0 * u) == -(c - a) * (2.0 * u)
  {
    Difference(b, a, 2.0 * u);
    Difference(c, b, 2.0 * u);
    Difference(c, a, 2.0 * u);
  }

  lemma {:induction false} InnerSum(vertices: seq<Vec>, v: Naming, rings: nat, segments: nat, p: Profile, n: nat)
    requires Stands(vertices, v, rings, segments, p) && n <= rings
    ensures Sum(vertices, Inner(v, rings, segments, n)) ==
      -(p.height(rings - n) - p.height(rings)) * (2.0 * Under(p.inner, segments))
  {
    hide Sum, Stands, InnerRing, Counted, Under;
    SumNone(vertices);
    if n > 0 {
      InnerSum(vertices, v, rings, segments, p, n - 1);
      SumAppend(vertices, Inner(v, rings, segments, n - 1), InnerRing(v, rings, segments, n - 1, segments + 1));
      InnerRingSum(vertices, v, rings, segments, p, n - 1, segments + 1);
      RingCounted(p.inner, segments);
      HeightsAdd(p.height(rings), p.height(rings - n + 1), p.height(rings - n), Under(p.inner, segments));
    }
  }

  /** The last inner ring adds nothing. */
  lemma {:induction false} LastInnerRing(v: Naming, rings: nat, segments: nat, n: nat)
    ensures InnerRing(v, rings, segments, rings, n) == []
  {
    if n > 0 {
      LastInnerRing(v, rings, segments, n - 1);
    }
  }

  lemma {:induction false} OuterSum(vertices: seq<Vec>, v: Naming, rings: nat, segments: nat, p: Profile, n: nat)
    requires Stands(vertices, v, rings, segments, p) && 1 <= n <= rings
    ensures Sum(vertices, Outer(v, rings, segments, n)) ==
      -(p.height(n) - p.height(0)) * (2.0 * Under(p.outer, segments)) + p.height(0) * Section(p.outer, p.inner, segments)
  {
    hide Sum, Stands, OuterRing, Counted, Under, Section;
    SumNone(vertices);
    SumAppend(vertices, Outer(v, rings, segments, n - 1), OuterRing(v, rings, segments, n - 1, segments + 1));
    OuterRingSum(vertices, v, rings, segments, p, n - 1, segments + 1);
    RingCounted(p.outer, segments);
    CellsAreSection(p, segments);
    if n > 1 {
      OuterSum(vertices, v, rings, segments, p, n - 1);
      HeightsAdd(p.height(0), p.height(n - 1), p.height(n), Under(p.outer, segments));
    }
  }

  lemma {:induction false} CapsSum(vertices: seq<Vec>, v: Naming, rings: nat, segments: nat, p: Profile, n: nat)
    requires Stands(vertices, v, rings, segments, p) && n <= rings
    ensures Sum(vertices, Caps(v, rings, segments, n)) ==
      2.0 * ((p.height(n) - p.height(0)) *
             (Turn(p.outer(0), p.inner(0)) - Turn(p.outer(segments), p.inner(segments))))
  {
    hide Sum, Stands, CapCell, Turn;
    SumNone(vertices);
    if n > 0 {
      CapsSum(vertices, v, rings, segments, p, n - 1);
      SumAppend(vertices, Caps(v, rings, segments, n - 1), CapCell(v, rings, segments, n - 1));
      CapSum(vertices, v, rings, segments, p, n - 1);
      var e := Turn(p.outer(0), p.inner(0)) - Turn(p.outer(segments), p.inner(segments));
      Distribute2(p.height(n) - p.height(n - 1), p.height(n - 1) - p.height(0), e);
    }
  }

  lemma WallsCombine(z: real, top: real, u: real, w: real, section: real)
    ensures -(top - z) * (2.0 * u) + z * section + -top * section - (z - top) * (2.0 * w) ==
            -(top - z) * (2.0 * u) + (top - z) * (2.0 * w) - (top - z) * section
  {
    Difference(top, z, section);
    Difference(z, top, 2.0 * w);
    Difference(top, z, 2.0 * w);
  }

  /** The top ring has no wall above it, and the last inner ring none below. */
  lemma TopRingSum(vertices: seq<Vec>, v: Naming, rings: nat, segments: nat, p: Profile)
    requires Stands(vertices, v, rings, segments, p) && 1 <= rings
    ensures Sum(vertices, OuterRing(v, rings, segments, rings, segments + 1))
         == -p.height(rings) * Section(p.outer, p.inner, segments)
  {
    hide Sum, Stands, OuterRing, Section;
    OuterRingSum(vertices, v, rings, segments, p, rings, segments + 1);
    CellsAreSection(p, segments);
    assert -0.0 * Counted(p.outer, segments, segments + 1) == 0.0;
  }

  lemma WallsSum(vertices: seq<Vec>, v: Naming, rings: nat, segments: nat, p: Profile)
    requires Stands(vertices, v, rings, segments, p) && 1 <= rings
    ensures
      var tall := p.height(rings) - p.height(0);
      Sum(vertices, Walls(v, rings, segments)) ==
        -tall * (2.0 * Under(p.outer, segments)) + tall * (2.0 * Under(p.inner, segments))
          - tall * Section(p.outer, p.inner, segments)
  {
    hide Sum, Stands, OuterRing, InnerRing, Under, Section;
    var outer, last := Outer(v, rings, segments, rings), OuterRing(v, rings, segments, rings, segments + 1);
    OuterSum(vertices, v, rings, segments, p, rings);
    TopRingSum(vertices, v, rings, segments, p);
    SumAppend(vertices, outer, last);
    InnerSum(vertices, v, rings, segments, p, rings);
    LastInnerRing(v, rings, segments, segments + 1);
    assert Inner(v, rings, segments, rings + 1) == Inner(v, rings, segments, rings);
    SumAppend(vertices, outer + last, Inner(v, rings, segments, rings));
    WallsCombine(p.height(0), p.height(rings), Under(p.outer, segments), Under(p.inner, segments),
                 Section(p.outer, p.inner, segments));
  }

  lemma Thirds(tall: real, a: real, b: real, e: real)
    ensures -tall * (2.0 * a) + tall * (2.0 * b) - tall * (a - b - e) + 2.0 * (tall * e) == -3.0 * (tall * (a - b - e))
  {
    Difference(a, b, tall);
    Difference(a - b, e, tall);
    NegatedProduct(tall, a);
  }

  /** Whether the two ends of the cross-section are in the same place, as on a full circle. */
  ghost predicate Meets(p: Profile, segments: nat) {
    p.outer(segments) == p.outer(0) && p.inner(segments) == p.inner(0)
  }

  /**
    * The volume of a tube whose walls stand upright is its height times the area of its cross-section, for every number
    * of rings and segments and every cross-section: with end caps in any case, and without them if its ends meet. The
    * sign says that the outside is on the right of the outer line.
    */
  lemma TubeVolume(vertices: seq<Vec>, v: Naming, rings: nat, segments: nat, fullCircle: bool, p: Profile)
    requires 1 <= rings && Stands(vertices, v, rings, segments, p) && (fullCircle ==> Meets(p, segments))
    ensures SignedVolume(vertices, TubeIndices(v, rings, segments, fullCircle)) ==
            -(p.height(rings) - p.height(0)) * (Section(p.outer, p.inner, segments) * 0.5)
  {
    hide Sum, Stands, Walls, Caps, Under, Turn;
    var indices := TubeIndices(v, rings, segments, fullCircle);
    SumIsVolume(vertices, indices);
    WallsSum(vertices, v, rings, segments, p);
    var tall := p.height(rings) - p.height(0);
    var a, b := Under(p.outer, segments), Under(p.inner, segments);
    var e := Turn(p.outer(0), p.inner(0)) - Turn(p.outer(segments), p.inner(segments));
    TurnFlips(p.outer(0), p.inner(0));
    if fullCircle {
      assert indices == Walls(v, rings, segments);
    } else {
      CapsSum(vertices, v, rings, segments, p, rings);
      SumAppend(vertices, Walls(v, rings, segments), Caps(v, rings, segments, rings));
    }
    Thirds(tall, a, b, e);
    Half(tall, Section(p.outer, p.inner, segments), SignedVolume(vertices, indices));
  }

  lemma Half(tall: real, section: real, volume: real)
    requires volume * 6.0 == -3.0 * (tall * section)
    ensures volume == -tall * (section * 0.5)
  {
    assert tall * (section * 0.5) == tall * section * 0.5;
  }

  // -------- the tube that is created --------

  /** The height of a ring: evenly from below the origin to as far above it. */
  function HeightOf(tall: real, rings: nat, i: nat): real
    requires 1 <= rings
  {
    i as real * tall / rings as real - tall / 2.0
  }

  /** The inner rings are placed from the top down. */
  lemma HeightFromTop(tall: real, rings: nat, i: nat)
    requires 1 <= rings && i <= rings
    ensures HeightOf(tall, rings, rings - i) == tall / 2.0 - i as real * tall / rings as real
    ensures HeightOf(tall, rings, rings) - HeightOf(tall, rings, 0) == tall
  {
    var n, q := rings as real, tall / rings as real;
    assert q * n == tall;
    Quotient(i as real, tall, n, q);
    Quotient(n, tall, n, q);
    Quotient(0.0, tall, n, q);
    Quotient((rings - i) as real, tall, n, q);
    Difference(n, i as real, q);
  }

  lemma Quotient(i: real, tall: real, n: real, q: real)
    requires n != 0.0 && q * n == tall
    ensures i * tall / n == i * q
  {
    var r := i * tall / n;
    assert r * n == i * tall;
    assert i * tall == i * q * n;
    assert (r - i * q) * n == 0.0;
  }

  /** The outer vertices stand over the outer line at the heights of the rings, the inner ones over the inner line. */
  ghost predicate PlacesUpright(place: (bool, nat, nat) -> Vec, rings: nat, outer: nat -> Flat, inner: nat -> Flat,
                                tall: real)
    requires 1 <= rings
  {
    forall i: nat, s: nat :: i <= rings ==>
      && place(false, i, s) == Lift(outer(s), i as real * tall / rings as real - tall / 2.0)
      && place(true, i, s) == Lift(inner(s), tall / 2.0 - i as real * tall / rings as real)
  }

  /** The volume of the tube that is created: its height times the area of its cross-section. */
  lemma CreatedTubeIsUpright(place: (bool, nat, nat) -> Vec, rings: nat, segments: nat, fullCircle: bool,
                             outer: nat -> Flat, inner: nat -> Flat, tall: real)
    requires 1 <= rings && PlacesUpright(place, rings, outer, inner, tall)
    requires fullCircle ==> outer(segments) == outer(0) && inner(segments) == inner(0)
    ensures
      var vertices := Rings(place, false, segments, rings + 1) + Rings(place, true, segments, rings + 1);
      SignedVolume(vertices, TubeIndices(Grid(segments), rings, segments, fullCircle)) ==
        -tall * (Section(outer, inner, segments) * 0.5)
  {
    hide Grid, Rings, TubeIndices, SignedVolume, HeightOf, Section, StandsAt;
    var vertices := Rings(place, false, segments, rings + 1) + Rings(place, true, segments, rings + 1);
    var p := Profile(outer, inner, (i: nat) => HeightOf(tall, rings, i));
    forall i: nat, s: nat | i <= 2 * rings + 1 && s <= segments
      ensures StandsAt(vertices, Grid(segments), rings, p, i, s)
    {
      PlacedStands(place, rings, segments, p, tall, i, s);
    }
    TubeVolume(vertices, Grid(segments), rings, segments, fullCircle, p);
    HeightFromTop(tall, rings, 0);
  }

  lemma PlacedStands(place: (bool, nat, nat) -> Vec, rings: nat, segments: nat, p: Profile, tall: real, i: nat, s: nat)
    requires 1 <= rings && PlacesUpright(place, rings, p.outer, p.inner, tall)
    requires forall k: nat :: p.height(k) == HeightOf(tall, rings, k)
    requires i <= 2 * rings + 1 && s <= segments
    ensures
      var vertices := Rings(place, false, segments, rings + 1) + Rings(place, true, segments, rings + 1);
      StandsAt(vertices, Grid(segments), rings, p, i, s)
  {
    PlacedAt(place, rings, segments, i, s);
    hide Grid, Rings, HeightOf, PlacesUpright;
    if i <= rings {
      PlacedHigh(place, rings, p.outer, p.inner, tall, i, s);
    } else {
      PlacedHigh(place, rings, p.outer, p.inner, tall, i - rings - 1, s);
      assert rings - (i - rings - 1) == 2 * rings + 1 - i;
    }
  }

  lemma PlacedHigh(place: (bool, nat, nat) -> Vec, rings: nat, outer: nat -> Flat, inner: nat -> Flat, tall: real,
                   i: nat, s: nat)
    requires 1 <= rings && PlacesUpright(place, rings, outer, inner, tall) && i <= rings
    ensures place(false, i, s) == Lift(outer(s), HeightOf(tall, rings, i))
    ensures place(true, i, s) == Lift(inner(s), HeightOf(tall, rings, rings - i))
  {
    HeightFromTop(tall, rings, i);
  }
}
