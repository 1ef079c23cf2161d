/** Volume, centroid and translation of a mesh, summed over its submeshes (graphics/src/Mesh.cc). */
module Meshes {
  import opened Vectors
  import opened SubMeshes

  ghost function TotalVolume(shapes: seq<Shape>): real {
    if shapes == [] then 0.0
    else TotalVolume(shapes[..|shapes|-1]) + shapes[|shapes|-1].Volume()
  }

  ghost function TotalMoment(shapes: seq<Shape>): Vec {
    if shapes == [] then ZERO
    else
      var last := shapes[|shapes|-1];
      TotalMoment(shapes[..|shapes|-1]).Plus(last.Center().Times(last.Volume()))
  }

  ghost function CenterFrom(moment: Vec, volume: real): Vec {
    if volume < NEGLIGIBLE_VOLUME then ZERO else moment.Over(volume)
  }

  ghost function MeshCenter(shapes: seq<Shape>): Vec {
    CenterFrom(TotalMoment(shapes), TotalVolume(shapes))
  }

  /** The volume of those submeshes whose own centroid is given up as the origin. */
  ghost function NegligibleVolume(shapes: seq<Shape>): real {
    if shapes == [] then 0.0
    else
      var last := shapes[|shapes|-1].Volume();
      NegligibleVolume(shapes[..|shapes|-1]) + (if last < NEGLIGIBLE_VOLUME then last else 0.0)
  }

  ghost function AllMoved(shapes: seq<Shape>, t: Vec): (r: seq<Shape>)
    ensures |r| == |shapes| && forall k :: 0 <= k < |r| ==> r[k] == shapes[k].Moved(t)
  {
    seq(|shapes|, k requires 0 <= k < |shapes| => shapes[k].Moved(t))
  }

  ghost predicate AllClosed(shapes: seq<Shape>) {
    forall k :: 0 <= k < |shapes| ==> shapes[k].IsClosed()
  }

  lemma {:induction false} TotalVolumeMoves(shapes: seq<Shape>, t: Vec)
    requires AllClosed(shapes)
    ensures TotalVolume(AllMoved(shapes, t)) == TotalVolume(shapes)
  {
    hide Shape.Volume, Shape.IsClosed;
    if shapes != [] {
      var n := |shapes| - 1;
      assert AllMoved(shapes, t)[..n] == AllMoved(shapes[..n], t);
      TotalVolumeMoves(shapes[..n], t);
      ClosedShapeMoves(shapes[n], t);
    }
  }

  lemma {:induction false} TotalMomentMoves(shapes: seq<Shape>, t: Vec)
    requires AllClosed(shapes)
    ensures TotalMoment(AllMoved(shapes, t))
         == TotalMoment(shapes).Plus(t.Times(TotalVolume(shapes) - NegligibleVolume(shapes)))
  {
    hide Shape.Volume, Shape.Center, Shape.IsClosed;
    if shapes != [] {
      var n := |shapes| - 1;
      assert AllMoved(shapes, t)[..n] == AllMoved(shapes[..n], t);
      TotalMomentMoves(shapes[..n], t);
      ClosedShapeMoves(shapes[n], t);
      var v, c := shapes[n].Volume(), shapes[n].Center();
      var w := TotalVolume(shapes[..n]) - NegligibleVolume(shapes[..n]);
      var m := TotalMoment(shapes[..n]);
      if v < NEGLIGIBLE_VOLUME {
        SumSameCenter(m, c, t, w, v);
      } else {
        SumMovedCenter(m, c, t, w, v);
      }
    }
  }

  lemma SumSameCenter(m: Vec, c: Vec, t: Vec, w: real, v: real)
    ensures m.Plus(t.Times(w)).Plus(c.Times(v)) == m.Plus(c.Times(v)).Plus(t.Times(w))
  {
  }

  lemma SumMovedCenter(m: Vec, c: Vec, t: Vec, w: real, v: real)
    ensures m.Plus(t.Times(w)).Plus(c.Plus(t).Times(v)) == m.Plus(c.Times(v)).Plus(t.Times(w + v))
  {
    SumMoved(m.x, c.x, t.x, w, v);
    SumMoved(m.y, c.y, t.y, w, v);
    SumMoved(m.z, c.z, t.z, w, v);
  }

  lemma SumMoved(m: real, c: real, t: real, w: real, v: real)
    ensures (m + t * w) + (c + t) * v == (m + c * v) + t * (w + v)
  {
    Distribute2(c, t, v);
    Distribute2(w, v, t);
  }

  /** There is no negligible volume exactly when each submesh has no volume or one of a measurable size. */
  lemma {:induction false} NoNegligibleVolume(shapes: seq<Shape>)
    ensures 0.0 <= NegligibleVolume(shapes)
    ensures NegligibleVolume(shapes) == 0.0
       <==> forall k :: 0 <= k < |shapes| ==> shapes[k].Volume() == 0.0 || NEGLIGIBLE_VOLUME <= shapes[k].Volume()
  {
    if shapes != [] {
      var n := |shapes| - 1;
      NoNegligibleVolume(shapes[..n]);
      assert forall k :: 0 <= k < n ==> shapes[..n][k] == shapes[k];
      assert 0.0 <= shapes[n].Volume();
      hide Shape.Volume;
    }
  }

  lemma QuotientFollows(m: real, v: real, n: real, t: real)
    requires v != 0.0
    ensures (m + t * (v - n)) / v == m / v + t <==> t == 0.0 || n == 0.0
  {
    Difference(v, n, t);
    QuotientShift(m - t * n, v, t);
    assert (m - t * n) / v == m / v - t * n / v;
    QuotientIsZero(t * n, v);
    ProductIsZero(t, n);
  }

  lemma QuotientIsZero(a: real, v: real)
    requires v != 0.0
    ensures a / v == 0.0 <==> a == 0.0
  {
  }

  lemma ProductIsZero(a: real, b: real)
    ensures a * b == 0.0 <==> a == 0.0 || b == 0.0
  {
  }

  lemma CenterFollows(m: Vec, v: real, n: real, t: Vec)
    ensures CenterFrom(m.Plus(t.Times(v - n)), v) == CenterFrom(m, v).Plus(t)
       <==> t == ZERO || (NEGLIGIBLE_VOLUME <= v && n == 0.0)
  {
    if NEGLIGIBLE_VOLUME <= v {
      QuotientFollows(m.x, v, n, t.x);
      QuotientFollows(m.y, v, n, t.y);
      QuotientFollows(m.z, v, n, t.z);
    }
  }

  /** The centroid of a mesh of closed submeshes follows a translation exactly when its volume is not negligible
      and no submesh of its own has a volume too small for a centroid, yet not zero. */
  lemma MeshCenterFollows(shapes: seq<Shape>, t: Vec)
    requires AllClosed(shapes)
    ensures MeshCenter(AllMoved(shapes, t)) == MeshCenter(shapes).Plus(t)
       <==> t == ZERO || (NEGLIGIBLE_VOLUME <= TotalVolume(shapes) && NegligibleVolume(shapes) == 0.0)
  {
    hide TotalVolume, TotalMoment, NegligibleVolume, AllMoved, AllClosed, CenterFrom, Vec.Plus, Vec.Times;
    TotalVolumeMoves(shapes, t);
    TotalMomentMoves(shapes, t);
    CenterFollows(TotalMoment(shapes), TotalVolume(shapes), NegligibleVolume(shapes), t);
  }

  /** Volumes and moments of two meshes add up. */
  lemma {:induction false} PartsAddUp(a: seq<Shape>, b: seq<Shape>)
    ensures TotalVolume(a + b) == TotalVolume(a) + TotalVolume(b)
    ensures TotalMoment(a + b) == TotalMoment(a).Plus(TotalMoment(b))
  {
    hide Shape.Volume, Shape.Center;
    if b == [] {
      assert a + b == a;
    } else {
      assert (a + b)[..|a + b|-1] == a + b[..|b|-1];
      PartsAddUp(a, b[..|b|-1]);
    }
  }

  lemma SinglePart(shape: Shape)
    ensures TotalVolume([shape]) == shape.Volume() && TotalMoment([shape]) == shape.Center().Times(shape.Volume())
  {
    assert [shape][..0] == [];
    hide Shape.Volume, Shape.Center;
  }

  /** A mesh of one submesh has its volume and its centroid. */
  lemma OneSubmesh(shape: Shape)
    ensures TotalVolume([shape]) == shape.Volume() && MeshCenter([shape]) == shape.Center()
  {
    SinglePart(shape);
    NegligibleHasNoCenter(shape);
    hide Shape.Volume, Shape.Center, TotalVolume, TotalMoment;
    if NEGLIGIBLE_VOLUME <= shape.Volume() {
      TimesOver(shape.Center(), shape.Volume());
    }
  }

  lemma NegligibleHasNoCenter(shape: Shape)
    ensures shape.Volume() < NEGLIGIBLE_VOLUME ==> shape.Center() == ZERO
  {
    hide SignedVolume, Moment, IsTriangleList;
  }

  lemma TimesOver(c: Vec, v: real)
    requires v != 0.0
    ensures c.Times(v).Over(v) == c && c.Over(v).Times(v) == c
  {
    QuotientOf(c.x, v);
    QuotientOf(c.y, v);
    QuotientOf(c.z, v);
  }

  lemma QuotientOf(c: real, v: real)
    requires v != 0.0
    ensures c * v / v == c && c / v * v == c
  {
  }

  /** The centroid of two meshes together is where their centroids balance, each with the weight of its volume. */
  lemma CentroidsBalance(a: seq<Shape>, b: seq<Shape>)
    requires NEGLIGIBLE_VOLUME <= TotalVolume(a) && NEGLIGIBLE_VOLUME <= TotalVolume(b)
    ensures MeshCenter(a + b).Times(TotalVolume(a) + TotalVolume(b))
         == MeshCenter(a).Times(TotalVolume(a)).Plus(MeshCenter(b).Times(TotalVolume(b)))
  {
    PartsAddUp(a, b);
    hide TotalVolume, TotalMoment;
    TimesOver(TotalMoment(a), TotalVolume(a));
    TimesOver(TotalMoment(b), TotalVolume(b));
    TimesOver(TotalMoment(a + b), TotalVolume(a + b));
    hide Vec.Times, Vec.Over, Vec.Plus;
  }

  class Mesh {
    var submeshes: seq<SubMesh>

    /** No submesh occurs twice: each one was created by AddSubMesh. */
    ghost predicate Valid()
      reads this
    {
      forall j, k :: 0 <= j < k < |submeshes| ==> submeshes[j] != submeshes[k]
    }

    ghost function Shapes(): (r: seq<Shape>)
      reads this, submeshes
      ensures |r| == |submeshes|
    {
      seq(|submeshes|, k requires 0 <= k < |submeshes| reads this, submeshes => submeshes[k].AsShape())
    }

    constructor ()
      ensures Valid() && Shapes() == []
    {
      submeshes := [];
    }

    method AddSubMesh(sub: SubMesh) returns (copy: SubMesh)
      requires Valid()
      modifies this
      ensures Valid() && fresh(copy) && submeshes == old(submeshes) + [copy]
      ensures Shapes() == old(Shapes()) + [sub.AsShape()]
    {
      copy := new SubMesh();
      copy.primitiveType, copy.vertices := sub.primitiveType, sub.vertices;
      copy.normals, copy.indices := sub.normals, sub.indices;
      submeshes := submeshes + [copy];
    }

    method Volume() returns (volume: real)
      ensures volume == TotalVolume(Shapes())
    {
      volume := 0.0;
      ghost var shapes := Shapes();
      for k := 0 to |submeshes|
        invariant volume == TotalVolume(shapes[..k])
      {
        var v := submeshes[k].Volume();
        volume := volume + v;
        assert shapes[..k+1][..k] == shapes[..k];
      }
      assert shapes[..|shapes|] == shapes;
    }

    method Centroid() returns (center: Vec)
      ensures center == MeshCenter(Shapes())
    {
      var moment, volume := ZERO, 0.0;
      ghost var shapes := Shapes();
      for k := 0 to |submeshes|
        invariant volume == TotalVolume(shapes[..k]) && moment == TotalMoment(shapes[..k])
      {
        var v := submeshes[k].Volume();
        var c := submeshes[k].Centroid();
        moment := moment.Plus(c.Times(v));
        volume := volume + v;
        assert shapes[..k+1][..k] == shapes[..k];
      }
      assert shapes[..|shapes|] == shapes;
      if volume < NEGLIGIBLE_VOLUME {
        return ZERO;
      }
      return moment.Over(volume);
    }

    method Translate(t: Vec)
      requires Valid()
      modifies submeshes
      ensures Valid() && Shapes() == AllMoved(old(Shapes()), t)
    {
      ghost var before := Shapes();
      for k := 0 to |submeshes|
        invariant forall j :: 0 <= j < |submeshes| ==>
          submeshes[j].AsShape() == if j < k then before[j].Moved(t) else before[j]
      {
        submeshes[k].Translate(t);
      }
    }
  }
}
