/** Volume and centroid of a tetrahedron (graphics/src/SubMesh.cc). */
module Tetrahedra {
  import opened Chains
  import opened Vectors
  import opened SubMeshes

  /** The four faces of a tetrahedron, seen from outside when its corners are in positive order. */
  function Faces(): (r: seq<nat>)
    ensures |r| == 12
  {
    [0, 2, 1] + [0, 1, 3] + [1, 2, 3] + [2, 0, 3]
  }

  function Tetrahedron(a: Vec, b: Vec, c: Vec, d: Vec): Shape {
    Shape(Triangles, [a, b, c, d], Faces())
  }

  lemma {:induction false} SumOfFaces(g: (nat, nat, nat) -> real)
    ensures TriangleSum(g, Faces()) == g(0, 2, 1) + g(0, 1, 3) + g(1, 2, 3) + g(2, 0, 3)
  {
    var f := Faces();
    assert f[..9][..6] == f[..6] && f[..6][..3] == f[..3] && f[..3][..0] == [];
    assert TriangleSum(g, f[..3]) == TriangleSum(g, []) + g(0, 2, 1);
    assert TriangleSum(g, f[..6]) == TriangleSum(g, f[..3]) + g(0, 1, 3);
    assert TriangleSum(g, f[..9]) == TriangleSum(g, f[..6]) + g(1, 2, 3);
    assert TriangleSum(g, f) == TriangleSum(g, f[..9]) + g(2, 0, 3);
  }

  lemma EdgesOf(a: nat, b: nat, c: nat)
    ensures TriangleEdges([a, b, c]) == Triangle(a, b, c)
  {
    assert [a, b, c][..0] == [];
    assert TriangleEdges<nat>([]) + Triangle(a, b, c) == Triangle(a, b, c);
  }

  lemma FaceNets(e: Edge<nat>)
    ensures Net(TriangleEdges(Faces()), e) ==
      Net(Triangle(0, 2, 1), e) + Net(Triangle(0, 1, 3), e) + Net(Triangle(1, 2, 3), e) + Net(Triangle(2, 0, 3), e)
  {
    EdgesOf(0, 2, 1);
    EdgesOf(0, 1, 3);
    EdgesOf(1, 2, 3);
    EdgesOf(2, 0, 3);
    TriangleEdgesAppend([0, 2, 1], [0, 1, 3]);
    TriangleEdgesAppend([0, 2, 1] + [0, 1, 3], [1, 2, 3]);
    TriangleEdgesAppend([0, 2, 1] + [0, 1, 3] + [1, 2, 3], [2, 0, 3]);
    hide TriangleEdges, Net, Triangle;
    NetAppend(Triangle(0, 2, 1), Triangle(0, 1, 3), e);
    NetAppend(Triangle(0, 2, 1) + Triangle(0, 1, 3), Triangle(1, 2, 3), e);
    NetAppend(Triangle(0, 2, 1) + Triangle(0, 1, 3) + Triangle(1, 2, 3), Triangle(2, 0, 3), e);
  }

  /** Every edge of a tetrahedron is in two faces, once in each direction. */
  lemma FacesAreClosed()
    ensures Closed(TriangleEdges(Faces()))
  {
    hide Net, Arc, TriangleEdges, Triangle, Closed, Faces;
    forall e: Edge<nat> ensures Net(TriangleEdges(Faces()), e) == 0 {
      FaceNets(e);
      NetOfTriangle(0, 2, 1, e);
      NetOfTriangle(0, 1, 3, e);
      NetOfTriangle(1, 2, 3, e);
      NetOfTriangle(2, 0, 3, e);
      ArcFlip(0, 1, e);
      ArcFlip(0, 2, e);
      ArcFlip(0, 3, e);
      ArcFlip(1, 2, e);
      ArcFlip(1, 3, e);
      ArcFlip(2, 3, e);
    }
    ClosedIffNetZero(TriangleEdges(Faces()));
  }

  /** With a corner at the origin only the face across from it counts. */
  lemma AtOrigin(b: Vec, c: Vec, d: Vec)
    ensures SignedVolume([ZERO, b, c, d], Faces()) == Det(b, c, d) / 6.0
    ensures Moment([ZERO, b, c, d], Faces()) == b.Plus(c).Plus(d).Times(Det(b, c, d) / 6.0).Times(0.25)
  {
    var vertices := [ZERO, b, c, d];
    SumOfFaces(TetVolume(vertices));
    SumOfFaces(TetMoment(vertices, X));
    SumOfFaces(TetMoment(vertices, Y));
    SumOfFaces(TetMoment(vertices, Z));
    FlatAtOrigin(c, b);
    FlatAtOrigin(b, d);
    FlatAtOrigin(c, d);
    hide TriangleSum, Det, Faces;
  }

  lemma FlatAtOrigin(u: Vec, v: Vec)
    ensures Det(ZERO, u, v) == 0.0 && Det(u, ZERO, v) == 0.0
  {
    DetMonomials(ZERO, u, v);
    DetMonomials(u, ZERO, v);
    hide Det;
  }

  lemma FromOrigin(a: Vec, b: Vec, c: Vec, d: Vec)
    ensures
      var vertices := [ZERO, b.Minus(a), c.Minus(a), d.Minus(a)];
      Translated(vertices, a) == [a, b, c, d] && IsTriangleList(vertices, Faces())
  {
  }

  lemma Quarter(a: Vec, u: Vec, v: real)
    requires v != 0.0
    ensures u.Times(v).Times(0.25).Over(v).Plus(a) == a.Plus(u.Times(0.25))
  {
    QuarterOf(u.x, v);
    QuarterOf(u.y, v);
    QuarterOf(u.z, v);
    assert u.Times(v).Times(0.25).Over(v) == u.Times(0.25);
    hide Vec.Times, Vec.Over;
  }

  lemma QuarterOf(u: real, v: real)
    requires v != 0.0
    ensures u * v * 0.25 / v == u * 0.25
  {
    var w := u * 0.25;
    assert u * v * 0.25 == w * v;
    Cancel(w, v);
  }

  lemma Cancel(w: real, v: real)
    requires v != 0.0
    ensures w * v / v == w
  {
  }

  lemma SumOfCorners(a: Vec, b: Vec, c: Vec, d: Vec)
    ensures a.Plus(b.Minus(a).Plus(c.Minus(a)).Plus(d.Minus(a)).Times(0.25)) == a.Plus(b).Plus(c).Plus(d).Times(0.25)
  {
  }

  lemma VolumeAndMoment(a: Vec, b: Vec, c: Vec, d: Vec)
    ensures
      var u, v, w := b.Minus(a), c.Minus(a), d.Minus(a);
      var volume := Det(u, v, w) / 6.0;
      && SignedVolume([a, b, c, d], Faces()) == volume
      && Moment([a, b, c, d], Faces()) == u.Plus(v).Plus(w).Times(volume).Times(0.25).Plus(a.Times(volume))
  {
    var vertices := [ZERO, b.Minus(a), c.Minus(a), d.Minus(a)];
    FromOrigin(a, b, c, d);
    FacesAreClosed();
    AtOrigin(b.Minus(a), c.Minus(a), d.Minus(a));
    hide SignedVolume, Moment, Det, Closed, TriangleEdges, Translated, Faces, Vec.Plus, Vec.Minus, Vec.Times, Vec.Over;
    ClosedVolumeShift(vertices, Faces(), a);
    ClosedCenterShift(vertices, Faces(), a);
  }

  lemma CenterOfCorners(a: Vec, b: Vec, c: Vec, d: Vec, volume: real)
    requires volume != 0.0
    ensures
      var u, v, w := b.Minus(a), c.Minus(a), d.Minus(a);
      u.Plus(v).Plus(w).Times(volume).Times(0.25).Plus(a.Times(volume)).Over(volume)
        == a.Plus(b).Plus(c).Plus(d).Times(0.25)
  {
    var sum := b.Minus(a).Plus(c.Minus(a)).Plus(d.Minus(a));
    SumOfCorners(a, b, c, d);
    Quarter(a, sum, volume);
    hide Vec.Minus, Vec.Over;
    OverShift(sum.Times(volume).Times(0.25), volume, a);
    hide Vec.Plus, Vec.Times;
  }

  /**
    * The volume of a tetrahedron, wherever it is and whichever way it is turned, is a sixth of the determinant of the
    * three edges at a corner. Its centroid is the mean of its corners, unless the volume is negligible.
    */
  lemma TetrahedronIs(a: Vec, b: Vec, c: Vec, d: Vec)
    ensures
      var t, det := Tetrahedron(a, b, c, d), Det(b.Minus(a), c.Minus(a), d.Minus(a));
      && t.Measurable() && t.IsClosed() && t.Volume() == Abs(det) / 6.0
      && t.Center() == if Abs(det) / 6.0 < NEGLIGIBLE_VOLUME then ZERO else a.Plus(b).Plus(c).Plus(d).Times(0.25)
  {
    hide SignedVolume, Moment, Det, Closed, TriangleEdges, Vec.Plus, Vec.Minus, Vec.Times, Vec.Over;
    FacesAreClosed();
    VolumeAndMoment(a, b, c, d);
    var volume := SignedVolume([a, b, c, d], Faces());
    if volume != 0.0 {
      CenterOfCorners(a, b, c, d, volume);
    }
  }
}
