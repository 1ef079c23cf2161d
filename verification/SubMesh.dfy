/** Volume, centroid and translation of a submesh (graphics/src/SubMesh.cc). */
module SubMeshes {
  import opened Chains
  import opened Vectors

  datatype PrimitiveType = Points | Lines | LineStrips | Triangles | TriFans | TriStrips

  const NEGLIGIBLE_VOLUME := 0.0000000000000001

  predicate InRange(indices: seq<nat>, count: nat) {
    forall k :: 0 <= k < |indices| ==> indices[k] < count
  }

  predicate IsTriangleList(vertices: seq<Vec>, indices: seq<nat>) {
    |indices| % 3 == 0 && InRange(indices, |vertices|)
  }

  function Translated(vertices: seq<Vec>, t: Vec): (r: seq<Vec>)
    ensures |r| == |vertices|
    ensures forall k :: 0 <= k < |r| ==> r[k] == vertices[k].Plus(t)
  {
    seq(|vertices|, k requires 0 <= k < |vertices| => vertices[k].Plus(t))
  }

  // Vertex i; indices are in range wherever the sums below are used.
  function Point(vertices: seq<Vec>, i: nat): Vec {
    if i < |vertices| then vertices[i] else ZERO
  }

  datatype Axis = X | Y | Z

  function At(v: Vec, axis: Axis): real {
    match axis case X => v.x case Y => v.y case Z => v.z
  }

  /** Signed volume of the tetrahedron over a triangle with its apex at the origin. */
  ghost function TetVolume(vertices: seq<Vec>): (nat, nat, nat) -> real {
    (a: nat, b: nat, c: nat) => Det(Point(vertices, a), Point(vertices, b), Point(vertices, c)) / 6.0
  }

  /** One coordinate of the first moment of that tetrahedron. */
  ghost function TetMoment(vertices: seq<Vec>, axis: Axis): (nat, nat, nat) -> real {
    (a: nat, b: nat, c: nat) =>
      TriangleMoment(Point(vertices, a), Point(vertices, b), Point(vertices, c), axis)
  }

  ghost function TriangleMoment(a: Vec, b: Vec, c: Vec, axis: Axis): real {
    (At(a, axis) + At(b, axis) + At(c, axis)) * (Det(a, b, c) / 6.0) / 4.0
  }

  ghost function SignedVolume(vertices: seq<Vec>, indices: seq<nat>): real
    requires |indices| % 3 == 0
  {
    TriangleSum(TetVolume(vertices), indices)
  }

  ghost function Moment(vertices: seq<Vec>, indices: seq<nat>): Vec
    requires |indices| % 3 == 0
  {
    Vec(TriangleSum(TetMoment(vertices, X), indices),
        TriangleSum(TetMoment(vertices, Y), indices),
        TriangleSum(TetMoment(vertices, Z), indices))
  }

  ghost function CenterOf(vertices: seq<Vec>, indices: seq<nat>): Vec
    requires |indices| % 3 == 0
  {
    var v := SignedVolume(vertices, indices);
    if Abs(v) < NEGLIGIBLE_VOLUME then ZERO else Moment(vertices, indices).Over(v)
  }

  /** What moving by t adds to the signed volume, edge by edge. */
  ghost function VolumeFlux(vertices: seq<Vec>, t: Vec): Edge<nat> -> real {
    (e: Edge<nat>) => Flux(t, Point(vertices, e.from), Point(vertices, e.to)) / 6.0
  }

  /** What moving by t adds to one coordinate of the moment, edge by edge, beside t times the volume. */
  ghost function MomentFlux(vertices: seq<Vec>, t: Vec, axis: Axis): Edge<nat> -> real {
    (e: Edge<nat>) => EdgeMoment(Point(vertices, e.from), Point(vertices, e.to), t, axis)
  }

  ghost function EdgeMoment(u: Vec, v: Vec, t: Vec, axis: Axis): real {
    Flux(t, u, v) * (At(u, axis) + At(v, axis) + 3.0 * At(t, axis)) / 24.0
  }

  lemma EdgeMomentFlip(u: Vec, v: Vec, t: Vec, axis: Axis)
    ensures EdgeMoment(v, u, t, axis) == -EdgeMoment(u, v, t, axis)
  {
    FluxFlip(t, u, v);
    var f, s := Flux(t, u, v), At(u, axis) + At(v, axis) + 3.0 * At(t, axis);
    hide Flux, At;
    assert -f * s == -(f * s);
  }

  lemma FluxesAreAntisymmetric(vertices: seq<Vec>, t: Vec, axis: Axis)
    ensures Antisymmetric(VolumeFlux(vertices, t))
    ensures Antisymmetric(MomentFlux(vertices, t, axis))
  {
    hide EdgeMoment, Flux;
    forall e: Edge<nat>
      ensures VolumeFlux(vertices, t)(Flip(e)) == -VolumeFlux(vertices, t)(e)
      ensures MomentFlux(vertices, t, axis)(Flip(e)) == -MomentFlux(vertices, t, axis)(e)
    {
      FluxFlip(t, Point(vertices, e.from), Point(vertices, e.to));
      EdgeMomentFlip(Point(vertices, e.from), Point(vertices, e.to), t, axis);
    }
  }

  /** Moving any triangle list, closed or not, changes its signed volume by the sum of an edge flux. */
  lemma SignedVolumeShift(vertices: seq<Vec>, indices: seq<nat>, t: Vec)
    requires IsTriangleList(vertices, indices)
    ensures SignedVolume(Translated(vertices, t), indices)
         == SignedVolume(vertices, indices) + EdgeSum(VolumeFlux(vertices, t), TriangleEdges(indices))
  {
    var none := Scaled(TetVolume(vertices), 0.0);
    forall a, b, c | a in indices && b in indices && c in indices
      ensures TetVolume(Translated(vertices, t))(a, b, c)
           == TetVolume(vertices)(a, b, c) + none(a, b, c) + VolumeFlux(vertices, t)(Edge(a, b))
              + VolumeFlux(vertices, t)(Edge(b, c)) + VolumeFlux(vertices, t)(Edge(c, a))
    {
      DetShift(vertices[a], vertices[b], vertices[c], t);
      hide Det, Flux;
    }
    TriangleSumShift(TetVolume(vertices), TetVolume(Translated(vertices, t)), none, VolumeFlux(vertices, t), indices);
    TriangleSumScaled(TetVolume(vertices), 0.0, indices);
  }

  lemma CramerAt(a: Vec, b: Vec, c: Vec, t: Vec, axis: Axis)
    ensures At(a, axis) * Flux(t, b, c) + At(b, axis) * Flux(t, c, a) + At(c, axis) * Flux(t, a, b)
         == At(t, axis) * Det(a, b, c)
  {
    Cramer(a, b, c, t);
    hide Det, Flux;
  }

  lemma AtPlus(a: Vec, t: Vec, axis: Axis)
    ensures At(a.Plus(t), axis) == At(a, axis) + At(t, axis)
  {
  }

  lemma TriangleMomentShift(a: Vec, b: Vec, c: Vec, t: Vec, axis: Axis)
    ensures TriangleMoment(a.Plus(t), b.Plus(t), c.Plus(t), axis)
         == TriangleMoment(a, b, c, axis) + At(t, axis) * (Det(a, b, c) / 6.0)
            + EdgeMoment(a, b, t, axis) + EdgeMoment(b, c, t, axis) + EdgeMoment(c, a, t, axis)
  {
    hide Det, Flux, At, Vec.Plus;
    DetShift(a, b, c, t);
    CramerAt(a, b, c, t, axis);
    AtPlus(a, t, axis);
    AtPlus(b, t, axis);
    AtPlus(c, t, axis);
    MomentAlgebra(Det(a, b, c), Flux(t, a, b), Flux(t, b, c), Flux(t, c, a),
                  At(a, axis), At(b, axis), At(c, axis), At(t, axis));
  }

  lemma MomentAlgebra(d: real, ab: real, bc: real, ca: real, a: real, b: real, c: real, t: real)
    requires a * bc + b * ca + c * ab == t * d
    ensures (a + t + (b + t) + (c + t)) * ((d + ab + bc + ca) / 6.0) / 4.0
         == (a + b + c) * (d / 6.0) / 4.0 + t * (d / 6.0)
            + ab * (a + b + 3.0 * t) / 24.0 + bc * (b + c + 3.0 * t) / 24.0 + ca * (c + a + 3.0 * t) / 24.0
  {
    var s := a + b + c + 3.0 * t;
    assert (a + t + (b + t) + (c + t)) * ((d + ab + bc + ca) / 6.0) == (d + ab + bc + ca) * s / 6.0;
    Distribute3(d, ab, bc + ca, s);
    Distribute2(bc, ca, s);
    Distribute3(a + b, c, 3.0 * t, ab);
    Distribute3(b + c, a, 3.0 * t, bc);
    Distribute3(c + a, b, 3.0 * t, ca);
    Distribute2(a + b + c, 3.0 * t, d);
    assert (a + b + c) * (d / 6.0) == (a + b + c) * d / 6.0;
  }

  lemma TetMomentShift(vertices: seq<Vec>, a: nat, b: nat, c: nat, t: Vec, axis: Axis)
    requires a < |vertices| && b < |vertices| && c < |vertices|
    ensures TetMoment(Translated(vertices, t), axis)(a, b, c)
         == TetMoment(vertices, axis)(a, b, c) + At(t, axis) * TetVolume(vertices)(a, b, c)
            + MomentFlux(vertices, t, axis)(Edge(a, b)) + MomentFlux(vertices, t, axis)(Edge(b, c))
            + MomentFlux(vertices, t, axis)(Edge(c, a))
  {
    hide Det, TriangleMoment, EdgeMoment, At;
    TriangleMomentShift(vertices[a], vertices[b], vertices[c], t, axis);
    var moved := Translated(vertices, t);
    assert Point(moved, a) == vertices[a].Plus(t) && Point(moved, b) == vertices[b].Plus(t);
    assert Point(moved, c) == vertices[c].Plus(t);
    var k, d := At(t, axis), Det(vertices[a], vertices[b], vertices[c]) / 6.0;
    assert TetVolume(vertices)(a, b, c) == d;
    assert k * TetVolume(vertices)(a, b, c) == k * d;
  }

  lemma MomentShift(vertices: seq<Vec>, indices: seq<nat>, t: Vec, axis: Axis)
    requires IsTriangleList(vertices, indices)
    ensures TriangleSum(TetMoment(Translated(vertices, t), axis), indices)
         == TriangleSum(TetMoment(vertices, axis), indices) + At(t, axis) * SignedVolume(vertices, indices)
            + EdgeSum(MomentFlux(vertices, t, axis), TriangleEdges(indices))
  {
    hide TetMoment, TetVolume, MomentFlux, TriangleSum, EdgeSum, At;
    var k, g, f := At(t, axis), TetVolume(vertices), MomentFlux(vertices, t, axis);
    var u := Scaled(g, k);
    forall a, b, c | a in indices && b in indices && c in indices
      ensures TetMoment(Translated(vertices, t), axis)(a, b, c)
           == TetMoment(vertices, axis)(a, b, c) + u(a, b, c) + f(Edge(a, b)) + f(Edge(b, c)) + f(Edge(c, a))
    {
      TetMomentShift(vertices, a, b, c, t, axis);
    }
    TriangleSumShift(TetMoment(vertices, axis), TetMoment(Translated(vertices, t), axis), u, f, indices);
    TriangleSumScaled(g, k, indices);
  }

  lemma ClosedMomentShift(vertices: seq<Vec>, indices: seq<nat>, t: Vec, axis: Axis)
    requires IsTriangleList(vertices, indices) && Closed(TriangleEdges(indices))
    ensures TriangleSum(TetMoment(Translated(vertices, t), axis), indices)
         == TriangleSum(TetMoment(vertices, axis), indices) + At(t, axis) * SignedVolume(vertices, indices)
  {
    FluxesAreAntisymmetric(vertices, t, axis);
    ClosedSumsToZero(MomentFlux(vertices, t, axis), TriangleEdges(indices));
    MomentShift(vertices, indices, t, axis);
    hide *;
  }

  lemma CombineShift(m: Vec, m': Vec, t: Vec, v: real)
    requires m'.x == m.x + At(t, X) * v && m'.y == m.y + At(t, Y) * v && m'.z == m.z + At(t, Z) * v
    ensures m' == m.Plus(t.Times(v))
  {
  }

  /** On a closed triangle list the signed volume does not depend on where the mesh is. */
  lemma ClosedVolumeShift(vertices: seq<Vec>, indices: seq<nat>, t: Vec)
    requires IsTriangleList(vertices, indices) && Closed(TriangleEdges(indices))
    ensures SignedVolume(Translated(vertices, t), indices) == SignedVolume(vertices, indices)
  {
    FluxesAreAntisymmetric(vertices, t, X);
    ClosedSumsToZero(VolumeFlux(vertices, t), TriangleEdges(indices));
    SignedVolumeShift(vertices, indices, t);
    hide *;
  }

  /** On a closed triangle list the moment moves by the volume times the translation. */
  lemma ClosedCenterShift(vertices: seq<Vec>, indices: seq<nat>, t: Vec)
    requires IsTriangleList(vertices, indices) && Closed(TriangleEdges(indices))
    ensures Moment(Translated(vertices, t), indices)
         == Moment(vertices, indices).Plus(t.Times(SignedVolume(vertices, indices)))
  {
    hide SignedVolume, TriangleSum, EdgeSum, TetMoment, At, Closed, TriangleEdges, Translated;
    ClosedMomentShift(vertices, indices, t, X);
    ClosedMomentShift(vertices, indices, t, Y);
    ClosedMomentShift(vertices, indices, t, Z);
    CombineShift(Moment(vertices, indices), Moment(Translated(vertices, t), indices), t, SignedVolume(vertices, indices));
  }

  /** The centroid of a closed mesh follows a translation exactly when its volume is not negligible (or the
      mesh is not moved at all): below the threshold the origin is returned wherever the mesh is. */
  lemma CentroidFollowsTranslation(vertices: seq<Vec>, indices: seq<nat>, t: Vec)
    requires IsTriangleList(vertices, indices) && Closed(TriangleEdges(indices))
    ensures CenterOf(Translated(vertices, t), indices) == CenterOf(vertices, indices).Plus(t)
       <==> NEGLIGIBLE_VOLUME <= Abs(SignedVolume(vertices, indices)) || t == ZERO
  {
    ClosedVolumeShift(vertices, indices, t);
    ClosedCenterShift(vertices, indices, t);
    hide SignedVolume, Moment;
    if NEGLIGIBLE_VOLUME <= Abs(SignedVolume(vertices, indices)) {
      OverShift(Moment(vertices, indices), SignedVolume(vertices, indices), t);
    }
  }

  lemma MomentStep(vertices: seq<Vec>, indices: seq<nat>, k: nat)
    requires IsTriangleList(vertices, indices) && k % 3 == 0 && k + 3 <= |indices|
    ensures (k + 3) % 3 == 0
    ensures var a, b, c := vertices[indices[k]], vertices[indices[k+1]], vertices[indices[k+2]];
      && SignedVolume(vertices, indices[..k+3]) == SignedVolume(vertices, indices[..k]) + Det(a, b, c) / 6.0
      && Moment(vertices, indices[..k+3])
         == Moment(vertices, indices[..k]).Plus(a.Plus(b).Plus(c).Times(Det(a, b, c) / 6.0).Over(4.0))
  {
    hide Det;
    LastTerm(TetVolume(vertices), indices, k);
    LastTerm(TetMoment(vertices, X), indices, k);
    LastTerm(TetMoment(vertices, Y), indices, k);
    LastTerm(TetMoment(vertices, Z), indices, k);
    hide TriangleSum;
  }

  lemma LastTerm(g: (nat, nat, nat) -> real, indices: seq<nat>, k: nat)
    requires k % 3 == 0 && k + 3 <= |indices|
    ensures TriangleSum(g, indices[..k+3])
         == TriangleSum(g, indices[..k]) + g(indices[k], indices[k+1], indices[k+2])
  {
    assert indices[..k+3][..k] == indices[..k];
  }

  /** What volume and centroid depend on. */
  datatype Shape = Shape(kind: PrimitiveType, vertices: seq<Vec>, indices: seq<nat>) {

    /** Triangle lists with at least one triangle and no index out of range; all others have no volume. */
    ghost predicate Measurable() {
      kind == Triangles && indices != [] && IsTriangleList(vertices, indices)
    }

    ghost function Volume(): real {
      if Measurable() then Abs(SignedVolume(vertices, indices)) else 0.0
    }

    ghost function Center(): Vec {
      if Measurable() then CenterOf(vertices, indices) else ZERO
    }

    ghost predicate IsClosed() {
      Measurable() ==> Closed(TriangleEdges(indices))
    }

    ghost function Moved(t: Vec): Shape {
      this.(vertices := Translated(vertices, t))
    }
  }

  /** Only triangle lists have a volume and a centroid. */
  lemma OthersHaveNone(shape: Shape)
    requires shape.kind != Triangles || shape.indices == [] || |shape.indices| % 3 != 0
          || exists k :: 0 <= k < |shape.indices| && |shape.vertices| <= shape.indices[k]
    ensures shape.Volume() == 0.0 && shape.Center() == ZERO && forall t :: shape.Moved(t).Volume() == 0.0
  {
    hide SignedVolume, CenterOf;
  }

  /** Moving a closed shape keeps its volume and, unless that is negligible, moves its centroid along. */
  lemma ClosedShapeMoves(shape: Shape, t: Vec)
    requires shape.IsClosed()
    ensures shape.Moved(t).IsClosed() && shape.Moved(t).Volume() == shape.Volume()
    ensures shape.Moved(t).Center()
         == if shape.Volume() < NEGLIGIBLE_VOLUME then shape.Center() else shape.Center().Plus(t)
  {
    hide Closed, CenterOf;
    assert shape.Moved(t).Measurable() == shape.Measurable();
    if shape.Measurable() {
      ClosedVolumeShift(shape.vertices, shape.indices, t);
      if shape.Volume() < NEGLIGIBLE_VOLUME {
        NegligibleCenter(shape.vertices, shape.indices);
        NegligibleCenter(Translated(shape.vertices, t), shape.indices);
      } else {
        CentroidFollowsTranslation(shape.vertices, shape.indices, t);
      }
    }
  }

  lemma NegligibleCenter(vertices: seq<Vec>, indices: seq<nat>)
    requires |indices| % 3 == 0 && Abs(SignedVolume(vertices, indices)) < NEGLIGIBLE_VOLUME
    ensures CenterOf(vertices, indices) == ZERO
  {
  }

  class SubMesh {
    var primitiveType: PrimitiveType
    var vertices: seq<Vec>
    var normals: seq<Vec>
    var indices: seq<nat>

    constructor ()
      ensures primitiveType == Triangles && vertices == [] && normals == [] && indices == []
    {
      primitiveType, vertices, normals, indices := Triangles, [], [], [];
    }

    method AddIndex(index: nat)
      modifies this`indices
      ensures indices == old(indices) + [index]
    {
      indices := indices + [index];
    }

    method AddVertex(v: Vec)
      modifies this`vertices
      ensures vertices == old(vertices) + [v]
    {
      vertices := vertices + [v];
    }

    method HasValidIndices() returns (valid: bool)
      ensures valid <==> indices != [] && InRange(indices, |vertices|)
    {
      if indices == [] {
        return false;
      }
      for k := 0 to |indices|
        invariant InRange(indices[..k], |vertices|)
      {
        if indices[k] >= |vertices| {
          return false;
        }
        assert indices[..k+1] == indices[..k] + [indices[k]];
      }
      assert indices[..|indices|] == indices;
      return true;
    }

    ghost function AsShape(): Shape
      reads this
    {
      Shape(primitiveType, vertices, indices)
    }

    method Volume() returns (volume: real)
      ensures volume == AsShape().Volume()
    {
      var valid := HasValidIndices();
      if !valid {
        return 0.0;
      }
      hide Vec.Cross, Vec.Dot;
      volume := 0.0;
      if primitiveType == Triangles && |indices| % 3 == 0 {
        var k := 0;
        while k < |indices|
          invariant 0 <= k <= |indices| && k % 3 == 0
          invariant volume == SignedVolume(vertices, indices[..k])
        {
          var a, b, c := vertices[indices[k]], vertices[indices[k+1]], vertices[indices[k+2]];
          volume := volume + a.Cross(b).Dot(c) / 6.0;
          MomentStep(vertices, indices, k);
          k := k + 3;
        }
        assert indices[..|indices|] == indices;
      }
      return Abs(volume);
    }

    method Centroid() returns (center: Vec)
      ensures center == AsShape().Center()
    {
      hide Vec.Cross, Vec.Dot;
      var moment, volume := ZERO, 0.0;
      var valid := HasValidIndices();
      if !valid {
        return moment;
      }
      if primitiveType != Triangles || |indices| % 3 != 0 {
        return moment;
      }
      var k := 0;
      while k < |indices|
        invariant 0 <= k <= |indices| && k % 3 == 0
        invariant volume == SignedVolume(vertices, indices[..k])
        invariant moment == Moment(vertices, indices[..k])
      {
        var a, b, c := vertices[indices[k]], vertices[indices[k+1]], vertices[indices[k+2]];
        var v := a.Cross(b).Dot(c) / 6.0;
        volume := volume + v;
        moment := moment.Plus(a.Plus(b).Plus(c).Times(v).Over(4.0));
        MomentStep(vertices, indices, k);
        k := k + 3;
      }
      assert indices[..|indices|] == indices;
      if Abs(volume) < NEGLIGIBLE_VOLUME {
        return ZERO;
      }
      return moment.Over(volume);
    }

    method Translate(t: Vec)
      modifies this`vertices
      ensures vertices == Translated(old(vertices), t) && AsShape() == old(AsShape()).Moved(t)
    {
      ghost var before := vertices;
      for k := 0 to |vertices|
        invariant |vertices| == |before|
        invariant forall j :: 0 <= j < |vertices| ==> vertices[j] == if j < k then before[j].Plus(t) else before[j]
      {
        vertices := vertices[k := vertices[k].Plus(t)];
      }
    }
  }
}
