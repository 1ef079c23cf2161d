/** The two COLLADA loaders that fill a submesh: triangles, and polygons cut into fans
    (graphics/src/ColladaLoader.cc, LoadTriangles and LoadPolylist). */
module Loaders {
  import opened Vectors
  import opened Unification

  /** Index tuples of a `<p>` element; an incomplete last one is skipped. */
  function Tuples(p: seq<nat>, size: nat): (r: seq<Tuple>)
    requires 0 < size
    ensures forall k :: 0 <= k < |r| ==> |r[k]| == size
    decreases |p|
  {
    if |p| < size then [] else [p[..size]] + Tuples(p[size..], size)
  }

  lemma TuplesStep(p: seq<nat>, size: nat, j: nat)
    requires 0 < size && j <= |p|
    ensures Tuples(p[j..], size) == if j + size <= |p| then [p[j..j + size]] + Tuples(p[j + size..], size) else []
  {
    if j + size <= |p| {
      assert p[j..][..size] == p[j..j + size] && p[j..][size..] == p[j + size..];
    }
  }

  /** Tuple j is the j-th stretch of `size` indices, as long as it is complete. */
  lemma {:induction false} TupleAt(p: seq<nat>, size: nat, j: nat)
    requires 0 < size
    ensures 0 <= j * size
    ensures j < |Tuples(p, size)| <==> j * size + size <= |p|
    ensures j < |Tuples(p, size)| ==> Tuples(p, size)[j] == p[j * size..j * size + size]
    decreases j
  {
    if j > 0 {
      assert j * size == (j - 1) * size + size;
      if size <= |p| {
        TupleAt(p[size..], size, j - 1);
        assert j * size + size <= |p| ==> p[size..][(j - 1) * size..(j - 1) * size + size] == p[j * size..j * size + size];
      }
    }
  }

  /** Corner c of a polygon whose tuples start at position `first`. */
  function Corner(p: seq<nat>, size: nat, first: nat, c: nat): (r: Tuple)
    requires first + (c + 1) * size <= |p|
    ensures |r| == size
  {
    assert (c + 1) * size == c * size + size;
    p[first + c * size..first + c * size + size]
  }

  /** The fan of the first n corners of a polygon: triangles (0, k-1, k). */
  function Fan(p: seq<nat>, size: nat, first: nat, n: nat): (r: seq<Tuple>)
    requires Skip(first, size, n) <= |p|
    ensures |r| == 3 * (if n < 2 then 0 else n - 2)
    ensures forall k :: 0 <= k < |r| ==> |r[k]| == size
  {
    if n <= 2 then []
    else
      CornersFit(size, n);
      Fan(p, size, first, n - 1) + [Corner(p, size, first, 0), Corner(p, size, first, n - 2), Corner(p, size, first, n - 1)]
  }

  lemma CornersFit(size: nat, n: nat)
    requires 2 < n
    ensures size <= (n - 1) * size <= n * size && ((n - 2) + 1) * size == (n - 1) * size && (0 + 1) * size == size
    ensures ((n - 1) + 1) * size == n * size
  {
    assert n * size == (n - 1) * size + size;
    assert (n - 1) * size == (n - 2) * size + size;
    assert 0 <= (n - 2) * size;
  }

  /** Where the next polygon starts. */
  function Skip(start: nat, size: nat, vcount: nat): nat {
    start + size * vcount
  }

  /** The fans of all polygons up to the first one that does not fit. */
  function Fans(p: seq<nat>, size: nat, vcounts: seq<nat>, first: nat): seq<Tuple> {
    if vcounts == [] || Skip(first, size, vcounts[0]) > |p| then []
    else Fan(p, size, first, vcounts[0]) + Fans(p, size, vcounts[1..], Skip(first, size, vcounts[0]))
  }

  /** How many of the polygons fit. */
  function Fitting(p: seq<nat>, size: nat, vcounts: seq<nat>, first: nat): (n: nat)
    ensures n <= |vcounts|
  {
    if vcounts == [] || Skip(first, size, vcounts[0]) > |p| then 0
    else 1 + Fitting(p, size, vcounts[1..], Skip(first, size, vcounts[0]))
  }

  function FanCorners(vcounts: seq<nat>): nat {
    if vcounts == [] then 0 else 3 * ((if vcounts[0] < 2 then 2 else vcounts[0]) - 2) + FanCorners(vcounts[1..])
  }

  /** Each polygon that fits gives three corners for every vertex after its second. */
  lemma {:induction false} FansCount(p: seq<nat>, size: nat, vcounts: seq<nat>, first: nat)
    ensures |Fans(p, size, vcounts, first)| == FanCorners(vcounts[..Fitting(p, size, vcounts, first)])
  {
    if !(vcounts == [] || Skip(first, size, vcounts[0]) > |p|) {
      var next := Skip(first, size, vcounts[0]);
      FansCount(p, size, vcounts[1..], next);
      var n := Fitting(p, size, vcounts[1..], next);
      assert vcounts[..n + 1][1..] == vcounts[1..][..n];
    }
  }

  /** Triangle k-2 of a fan has the corners 0, k-1 and k. */
  lemma {:induction false} FanTriangle(p: seq<nat>, size: nat, first: nat, n: nat, k: nat)
    requires Skip(first, size, n) <= |p| && 2 <= k < n
    ensures size <= k * size && (k + 1) * size <= n * size && ((k - 1) + 1) * size == k * size
    ensures var fan, i := Fan(p, size, first, n), 3 * (k - 2);
      fan[i..i+3] == [Corner(p, size, first, 0), Corner(p, size, first, k - 1), Corner(p, size, first, k)]
  {
    CornersFit(size, n);
    if k < n - 1 {
      FanTriangle(p, size, first, n - 1, k);
      var i := 3 * (k - 2);
      assert Fan(p, size, first, n)[i..i+3] == Fan(p, size, first, n - 1)[i..i+3];
    }
  }

  /** The corners of the first l polygons. */
  function CornersBefore(vcounts: seq<nat>, l: nat): nat
    requires l <= |vcounts|
  {
    if l == 0 then 0 else vcounts[0] + CornersBefore(vcounts[1..], l - 1)
  }

  /** Where polygon l starts. */
  function StartOf(size: nat, vcounts: seq<nat>, first: nat, l: nat): (start: nat)
    requires l <= |vcounts|
    ensures first <= start
    decreases l
  {
    if l == 0 then first else StartOf(size, vcounts[1..], Skip(first, size, vcounts[0]), l - 1)
  }

  /** It starts behind the corners of the polygons before it. */
  lemma {:induction false} StartIs(size: nat, vcounts: seq<nat>, first: nat, l: nat)
    requires l <= |vcounts|
    ensures StartOf(size, vcounts, first, l) == first + size * CornersBefore(vcounts, l)
    decreases l
  {
    if l > 0 {
      var a, b := vcounts[0], CornersBefore(vcounts[1..], l - 1);
      StartIs(size, vcounts[1..], Skip(first, size, a), l - 1);
      assert size * (a + b) == size * a + size * b;
    }
  }

  /** A polygon fits exactly if the indices reach as far as where the next one would start. */
  lemma {:induction false} FittingExactly(p: seq<nat>, size: nat, vcounts: seq<nat>, first: nat, l: nat)
    requires l < |vcounts|
    ensures l < Fitting(p, size, vcounts, first) <==> StartOf(size, vcounts, first, l + 1) <= |p|
    decreases l
  {
    hide Skip;
    var next := Skip(first, size, vcounts[0]);
    assert StartOf(size, vcounts, first, l + 1) == StartOf(size, vcounts[1..], next, l);
    if l == 0 {
      assert StartOf(size, vcounts[1..], next, 0) == next;
    } else {
      FittingExactly(p, size, vcounts[1..], next, l - 1);
    }
  }

  /** The k-th triangle of a polygon: its first corner, and two neighbours. */
  function TriangleOf(p: seq<nat>, size: nat, start: nat, k: nat): seq<Tuple>
    requires 2 <= k && start + (k + 1) * size <= |p|
  {
    CornersFit(size, k + 1);
    [Corner(p, size, start, 0), Corner(p, size, start, k - 1), Corner(p, size, start, k)]
  }

  /** Which corners the triangles of polygon l have, and where they are emitted. */
  lemma {:induction false} PolygonTriangle(p: seq<nat>, size: nat, vcounts: seq<nat>, first: nat, l: nat, k: nat)
    requires l < |vcounts| && StartOf(size, vcounts, first, l + 1) <= |p| && 2 <= k < vcounts[l]
    ensures
      var start, i := StartOf(size, vcounts, first, l), FanCorners(vcounts[..l]) + 3 * (k - 2);
      && start + (k + 1) * size <= |p| && i + 3 <= |Fans(p, size, vcounts, first)|
      && Fans(p, size, vcounts, first)[i..i + 3] == TriangleOf(p, size, start, k)
    decreases l
  {
    hide TriangleOf, Fan, Skip, Fans;
    var next := Skip(first, size, vcounts[0]);
    assert StartOf(size, vcounts, first, l + 1) == StartOf(size, vcounts[1..], next, l);
    if l == 0 {
      assert StartOf(size, vcounts[1..], next, 0) == next;
      FirstTriangle(p, size, vcounts, first, k);
    } else {
      PolygonTriangle(p, size, vcounts[1..], next, l - 1, k);
      LaterTriangles(p, size, vcounts, first, l);
      var i, n := FanCorners(vcounts[1..][..l - 1]) + 3 * (k - 2), |Fan(p, size, first, vcounts[0])|;
      assert Fans(p, size, vcounts, first)[n..][i..i + 3] == Fans(p, size, vcounts, first)[n + i..n + i + 3];
    }
  }

  lemma FirstTriangle(p: seq<nat>, size: nat, vcounts: seq<nat>, first: nat, k: nat)
    requires vcounts != [] && Skip(first, size, vcounts[0]) <= |p| && 2 <= k < vcounts[0]
    ensures first + (k + 1) * size <= |p|
    ensures
      var i := 3 * (k - 2);
      && FanCorners(vcounts[..0]) == 0 && i + 3 <= |Fans(p, size, vcounts, first)|
      && Fans(p, size, vcounts, first)[i..i + 3] == TriangleOf(p, size, first, k)
  {
    FanTriangle(p, size, first, vcounts[0], k);
    assert (k + 1) * size <= vcounts[0] * size == size * vcounts[0];
    var fan, i := Fan(p, size, first, vcounts[0]), 3 * (k - 2);
    hide Fan, Skip;
    assert Fans(p, size, vcounts, first)[i..i + 3] == fan[i..i + 3];
  }

  lemma LaterTriangles(p: seq<nat>, size: nat, vcounts: seq<nat>, first: nat, l: nat)
    requires 0 < l <= |vcounts| && Skip(first, size, vcounts[0]) <= |p|
    ensures
      var n, next := |Fan(p, size, first, vcounts[0])|, Skip(first, size, vcounts[0]);
      && n <= |Fans(p, size, vcounts, first)|
      && Fans(p, size, vcounts, first)[n..] == Fans(p, size, vcounts[1..], next)
      && FanCorners(vcounts[..l]) == n + FanCorners(vcounts[1..][..l - 1])
  {
    hide Fan, Skip;
    assert vcounts[..l][1..] == vcounts[1..][..l - 1];
  }

  function Flatten(tuples: seq<Tuple>): seq<nat> {
    if tuples == [] then [] else tuples[0] + Flatten(tuples[1..])
  }

  lemma {:induction false} TuplesOfFlatten(tuples: seq<Tuple>, size: nat)
    requires 0 < size && forall k :: 0 <= k < |tuples| ==> |tuples[k]| == size
    ensures Tuples(Flatten(tuples), size) == tuples
  {
    if tuples != [] {
      TuplesOfFlatten(tuples[1..], size);
      assert Flatten(tuples)[..size] == tuples[0] && Flatten(tuples)[size..] == Flatten(tuples[1..]);
    }
  }

  lemma {:induction false} FansSizes(p: seq<nat>, size: nat, vcounts: seq<nat>, first: nat)
    ensures forall k :: 0 <= k < |Fans(p, size, vcounts, first)| ==> |Fans(p, size, vcounts, first)[k]| == size
  {
    if !(vcounts == [] || Skip(first, size, vcounts[0]) > |p|) {
      FansSizes(p, size, vcounts[1..], Skip(first, size, vcounts[0]));
    }
  }

  /** The loaders look at normals only if some were loaded. */
  function Effective(inputs: Inputs, sources: Sources): Inputs {
    if sources.normals == [] then inputs.(normalOffset := None) else inputs
  }

  class Builder {
    var vertices: seq<Vec>
    var normals: seq<Vec>
    var texcoords: map<nat, seq<Uv>>
    var indices: seq<nat>
    var vertexIndexMap: map<nat, seq<GeometryIndices>>

    ghost function AsOutput(): Output
      reads this
    {
      Output(vertices, normals, texcoords, indices, vertexIndexMap)
    }

    constructor ()
      ensures AsOutput() == EMPTY
    {
      vertices, normals, texcoords, indices, vertexIndexMap := [], [], map[], [], map[];
    }

    /** The index in the k-th texture coordinate set, that of the first occurrence of its value. */
    method TexcoordIndex(inputs: Inputs, sources: Sources, values: seq<nat>, k: nat) returns (remapped: nat)
      requires GoodInputs(inputs, sources) && |values| == inputs.size && k < |inputs.texcoordOffsets|
      ensures remapped == TexcoordOf(inputs, sources, values, k)
    {
      var (offset, s) := inputs.texcoordOffsets[k];
      remapped := values[offset];
      if remapped in sources.texcoordDups[s] {
        remapped := sources.texcoordDups[s][remapped];
      }
    }

    method HasSameTexcoords(inputs: Inputs, sources: Sources, values: seq<nat>, iv: GeometryIndices)
      returns (texEqual: bool)
      requires GoodInputs(inputs, sources) && |values| == inputs.size
      ensures texEqual == SameTexcoords(inputs, sources, values, iv)
    {
      for k := 0 to |inputs.texcoordOffsets|
        invariant forall j :: 0 <= j < k ==>
          TexcoordIndexForSet(iv.texcoordIndex, inputs.texcoordOffsets[j].1) == TexcoordOf(inputs, sources, values, j)
      {
        var (_, s) := inputs.texcoordOffsets[k];
        var remapped := TexcoordIndex(inputs, sources, values, k);
        if TexcoordIndexForSet(iv.texcoordIndex, s) != remapped {
          return false;
        }
      }
      return true;
    }

    /** Looks for a record with the same normal and texture coordinates. */
    method FindShared(inputs: Inputs, sources: Sources, values: seq<nat>, ivs: seq<GeometryIndices>)
      returns (toDuplicate: bool, reuseIndex: nat)
      requires GoodInputs(inputs, sources) && |values| == inputs.size
      ensures var i := FirstShared(inputs, sources, values, ivs);
        (toDuplicate <==> i == |ivs|) && (!toDuplicate ==> reuseIndex == ivs[i].mappedIndex)
    {
      hide SameTexcoords;
      for i := 0 to |ivs|
        invariant FirstShared(inputs, sources, values, ivs) == i + FirstShared(inputs, sources, values, ivs[i..])
      {
        var iv := ivs[i];
        var normEqual := false;
        if inputs.normalOffset.Some? {
          var remapped := values[inputs.normalOffset.value];
          if remapped in sources.normalDups {
            remapped := sources.normalDups[remapped];
          }
          normEqual := iv.normalIndex == remapped;
        }
        var texEqual := HasSameTexcoords(inputs, sources, values, iv);
        if (inputs.normalOffset.None? || normEqual) && texEqual {
          return false, iv.mappedIndex;
        }
      }
      return true, 0;
    }

    method AddNewTexcoords(inputs: Inputs, sources: Sources, values: seq<nat>) returns (texcoordIndex: seq<(nat, nat)>)
      requires GoodInputs(inputs, sources) && GoodSources(sources) && TupleFits(inputs, sources, values)
      modifies this`texcoords
      ensures texcoords == AddTexcoords(inputs, sources, values, old(texcoords), |inputs.texcoordOffsets|)
      ensures texcoordIndex == RecordedTexcoords(inputs, sources, values, |inputs.texcoordOffsets|)
    {
      hide Column, GoodSources, TexcoordOf, AddTexcoords, RecordedTexcoords;
      texcoordIndex := [];
      NoTexcoords(inputs, sources, values, texcoords);
      for k := 0 to |inputs.texcoordOffsets|
        invariant texcoords == AddTexcoords(inputs, sources, values, old(texcoords), k)
        invariant texcoordIndex == RecordedTexcoords(inputs, sources, values, k)
      {
        var (_, s) := inputs.texcoordOffsets[k];
        var remapped := TexcoordIndex(inputs, sources, values, k);
        NextTexcoord(inputs, sources, values, old(texcoords), k);
        texcoords := texcoords[s := Column(texcoords, s) + [sources.texcoords[s][remapped]]];
        texcoordIndex := texcoordIndex + [(s, remapped)];
      }
    }

    method AddNewVertex(inputs: Inputs, sources: Sources, values: seq<nat>, daeVertIndex: nat)
      requires GoodInputs(inputs, sources) && GoodSources(sources) && TupleFits(inputs, sources, values)
      requires daeVertIndex == VertexOf(inputs, sources, values)
      modifies this
      ensures AsOutput() == Appended(inputs, sources, old(AsOutput()), values)
    {
      hide AddTexcoords, RecordedTexcoords;
      vertices := vertices + [sources.positions[daeVertIndex]];
      var newVertIndex := |vertices| - 1;
      indices := indices + [newVertIndex];
      var normalIndex := inputs.unset(newVertIndex);
      if inputs.normalOffset.Some? {
        var remapped := values[inputs.normalOffset.value];
        if remapped in sources.normalDups {
          remapped := sources.normalDups[remapped];
        }
        if |sources.normals| > remapped {
          normals := normals + [sources.normals[remapped]];
          normalIndex := remapped;
        }
      }
      var texcoordIndex := AddNewTexcoords(inputs, sources, values);
      var input := GeometryIndices(daeVertIndex, normalIndex, texcoordIndex, newVertIndex);
      vertexIndexMap := vertexIndexMap[daeVertIndex := [input]];
    }

    /** One corner: shares a vertex or adds one. */
    method AddCorner(inputs: Inputs, sources: Sources, values: seq<nat>)
      requires GoodInputs(inputs, sources) && GoodSources(sources) && TupleFits(inputs, sources, values)
      modifies this
      ensures AsOutput() == Step(inputs, sources, old(AsOutput()), values)
    {
      hide GoodSources, CanShare, AddTexcoords;
      var daeVertIndex := values[inputs.vertexOffset];
      if daeVertIndex in sources.positionDups {
        daeVertIndex := sources.positionDups[daeVertIndex];
      }
      var addIndex := true;
      if daeVertIndex in vertexIndexMap {
        var toDuplicate, reuseIndex := FindShared(inputs, sources, values, vertexIndexMap[daeVertIndex]);
        if !toDuplicate {
          indices := indices + [reuseIndex];
        }
        addIndex := toDuplicate;
      }
      if addIndex {
        AddNewVertex(inputs, sources, values, daeVertIndex);
      }
    }

    method AppendCorner(inputs: Inputs, sources: Sources, values: seq<nat>, ghost done: seq<Tuple>)
      requires GoodInputs(inputs, sources) && GoodSources(sources) && TupleFits(inputs, sources, values)
      requires AllFit(inputs, sources, done) && AsOutput() == Unified(inputs, sources, done)
      modifies this
      ensures AllFit(inputs, sources, done + [values])
      ensures AsOutput() == Unified(inputs, sources, done + [values])
    {
      hide GoodSources, GoodInputs, TupleFits, Step;
      AddCorner(inputs, sources, values);
      assert (done + [values])[..|done|] == done;
    }

    /** The loop over the complete tuples. */
    method LoadTuples(inputs: Inputs, sources: Sources, p: seq<nat>)
      requires AsOutput() == EMPTY
      requires GoodInputs(inputs, sources) && GoodSources(sources) && AllFit(inputs, sources, Tuples(p, inputs.size))
      modifies this
      ensures AsOutput() == Unified(inputs, sources, Tuples(p, inputs.size))
    {
      hide Tuples, AllFit, GoodSources, GoodInputs, Unified;
      HasSize(inputs, sources);
      ghost var all := Tuples(p, inputs.size);
      ghost var done: seq<Tuple> := [];
      NothingLoaded(inputs, sources);
      assert p[0..] == p;
      var j := 0;
      while j + inputs.size <= |p|
        invariant j <= |p| && done + Tuples(p[j..], inputs.size) == all
        invariant AllFit(inputs, sources, done) && AsOutput() == Unified(inputs, sources, done)
      {
        var values := p[j..j + inputs.size];
        TuplesStep(p, inputs.size, j);
        FitsAt(inputs, sources, all, |done|);
        AppendCorner(inputs, sources, values, done);
        done := done + [values];
        j := j + inputs.size;
      }
      TuplesStep(p, inputs.size, j);
      assert done == all;
    }

    method LoadTriangles(inputs0: Inputs, sources: Sources, p: seq<nat>)
      requires AsOutput() == EMPTY
      requires var inputs := Effective(inputs0, sources);
        GoodInputs(inputs, sources) && GoodSources(sources) && AllInRange(inputs, sources, Tuples(p, inputs.size))
      modifies this
      ensures AsOutput() == Unified(Effective(inputs0, sources), sources, Tuples(p, inputs0.size))
    {
      hide Tuples, AllInRange, AllFit, GoodInputs, GoodSources, Unified;
      var inputs := Effective(inputs0, sources);
      HasSize(inputs, sources);
      InRangeFits(inputs, sources, Tuples(p, inputs.size));
      LoadTuples(inputs, sources, p);
    }

    /** The k-th triangle of the fan of a polygon. */
    method LoadFanTriangle(inputs: Inputs, sources: Sources, p: seq<nat>, polyStart: nat, k: nat, ghost done: seq<Tuple>,
                           ghost t: seq<Tuple>)
      requires GoodInputs(inputs, sources) && GoodSources(sources) && 2 <= k && |t| == 3
      requires inputs.size <= k * inputs.size && polyStart + (k + 1) * inputs.size <= |p|
      requires ((k - 1) + 1) * inputs.size == k * inputs.size
      requires t == [Corner(p, inputs.size, polyStart, 0), Corner(p, inputs.size, polyStart, k - 1),
                     Corner(p, inputs.size, polyStart, k)]
      requires forall j :: 0 <= j < 3 ==> TupleFits(inputs, sources, t[j])
      requires AllFit(inputs, sources, done) && AsOutput() == Unified(inputs, sources, done)
      modifies this
      ensures AllFit(inputs, sources, done + t) && AsOutput() == Unified(inputs, sources, done + t)
    {
      hide GoodSources, TupleFits, GoodInputs, Unified, AllFit;
      CornersFit(inputs.size, k + 1);
      assert done + t[..0] == done;
      for j := 0 to 3
        invariant AllFit(inputs, sources, done + t[..j]) && AsOutput() == Unified(inputs, sources, done + t[..j])
      {
        var triangleIndex := if j == 0 then 0 else if j == 1 then (k - 1) * inputs.size else k * inputs.size;
        var values := p[polyStart + triangleIndex..polyStart + triangleIndex + inputs.size];
        assert values == t[j];
        AppendCorner(inputs, sources, values, done + t[..j]);
        assert done + t[..j] + [values] == done + t[..j+1];
      }
      assert t[..3] == t;
    }

    /** The triangles of one polygon. */
    method LoadPolygon(inputs: Inputs, sources: Sources, p: seq<nat>, polyStart: nat, vcount: nat, ghost done: seq<Tuple>)
      requires GoodInputs(inputs, sources) && GoodSources(sources)
      requires Skip(polyStart, inputs.size, vcount) <= |p|
      requires AllFit(inputs, sources, Fan(p, inputs.size, polyStart, vcount))
      requires AllFit(inputs, sources, done) && AsOutput() == Unified(inputs, sources, done)
      modifies this
      ensures var after := done + Fan(p, inputs.size, polyStart, vcount);
        AllFit(inputs, sources, after) && AsOutput() == Unified(inputs, sources, after)
    {
      hide GoodSources, TupleFits, GoodInputs, Unified, Fan;
      ghost var all := Fan(p, inputs.size, polyStart, vcount);
      ghost var emitted: seq<Tuple> := [];
      assert done + [] == done;
      var k := 2;
      while k < vcount
        invariant 2 <= k && (k <= vcount || vcount < 2) && emitted == all[..if vcount < 2 then 0 else 3 * (k - 2)]
        invariant AllFit(inputs, sources, done + emitted) && AsOutput() == Unified(inputs, sources, done + emitted)
      {
        FanTriangle(p, inputs.size, polyStart, vcount, k);
        ghost var i := 3 * (k - 2);
        ghost var t := all[i..i + 3];
        assert forall j :: 0 <= j < 3 ==> t[j] == all[i + j];
        LoadFanTriangle(inputs, sources, p, polyStart, k, done + emitted, t);
        assert all[..i + 3] == emitted + t && done + emitted + t == done + (emitted + t);
        emitted := emitted + t;
        k := k + 1;
      }
      assert emitted == all;
    }

    method LoadPolylist(inputs: Inputs, sources: Sources, vcounts: seq<nat>, p: seq<nat>)
      requires AsOutput() == EMPTY
      requires GoodInputs(inputs, sources) && GoodSources(sources)
      requires AllFit(inputs, sources, Fans(p, inputs.size, vcounts, 0))
      modifies this
      ensures AsOutput() == Unified(inputs, sources, Fans(p, inputs.size, vcounts, 0))
    {
      hide GoodSources, GoodInputs, Fan, AllFit, Unified, Skip;
      NothingLoaded(inputs, sources);
      ghost var all := Fans(p, inputs.size, vcounts, 0);
      ghost var done: seq<Tuple> := [];
      var polyStart: nat := 0;
      for l := 0 to |vcounts|
        invariant var next := if l == 0 then polyStart else Skip(polyStart, inputs.size, vcounts[l-1]);
          done + Fans(p, inputs.size, vcounts[l..], next) == all
        invariant AllFit(inputs, sources, done) && AsOutput() == Unified(inputs, sources, done)
      {
        if l > 0 {
          polyStart := Skip(polyStart, inputs.size, vcounts[l-1]);
        }
        assert vcounts[l..][0] == vcounts[l] && vcounts[l..][1..] == vcounts[l+1..];
        if Skip(polyStart, inputs.size, vcounts[l]) > |p| {
          break;
        }
        ghost var fan := Fan(p, inputs.size, polyStart, vcounts[l]);
        FanWithin(inputs, sources, all, done, fan,
                  Fans(p, inputs.size, vcounts[l+1..], Skip(polyStart, inputs.size, vcounts[l])));
        LoadPolygon(inputs, sources, p, polyStart, vcounts[l], done);
        done := done + fan;
      }
      assert done == all;
    }
  }

  lemma NoTexcoords(inputs: Inputs, sources: Sources, tuple: Tuple, texcoords: map<nat, seq<Uv>>)
    requires GoodInputs(inputs, sources) && GoodSources(sources) && TupleFits(inputs, sources, tuple)
    ensures AddTexcoords(inputs, sources, tuple, texcoords, 0) == texcoords
    ensures RecordedTexcoords(inputs, sources, tuple, 0) == []
  {
  }

  lemma NextTexcoord(inputs: Inputs, sources: Sources, tuple: Tuple, texcoords: map<nat, seq<Uv>>, k: nat)
    requires GoodInputs(inputs, sources) && GoodSources(sources) && TupleFits(inputs, sources, tuple)
    requires k < |inputs.texcoordOffsets|
    ensures var s, i := inputs.texcoordOffsets[k].1, TexcoordOf(inputs, sources, tuple, k);
      var before := AddTexcoords(inputs, sources, tuple, texcoords, k);
      && i < |sources.texcoords[s]|
      && AddTexcoords(inputs, sources, tuple, texcoords, k + 1) ==
         before[s := Column(before, s) + [sources.texcoords[s][i]]]
      && RecordedTexcoords(inputs, sources, tuple, k + 1) == RecordedTexcoords(inputs, sources, tuple, k) + [(s, i)]
  {
    TexcoordResolves(inputs, sources, tuple, k);
    hide Column, TexcoordOf;
  }

  lemma HasSize(inputs: Inputs, sources: Sources)
    requires GoodInputs(inputs, sources)
    ensures inputs.size > 0
  {
  }

  lemma InRangeFits(inputs: Inputs, sources: Sources, tuples: seq<Tuple>)
    requires GoodInputs(inputs, sources) && AllInRange(inputs, sources, tuples)
    ensures AllFit(inputs, sources, tuples)
  {
  }

  lemma FitsAt(inputs: Inputs, sources: Sources, tuples: seq<Tuple>, k: nat)
    requires GoodInputs(inputs, sources) && AllFit(inputs, sources, tuples) && k < |tuples|
    ensures TupleFits(inputs, sources, tuples[k])
  {
  }

  lemma NothingLoaded(inputs: Inputs, sources: Sources)
    requires GoodInputs(inputs, sources) && GoodSources(sources)
    ensures AllFit(inputs, sources, []) && Unified(inputs, sources, []) == EMPTY
  {
  }

  lemma FanWithin(inputs: Inputs, sources: Sources, all: seq<Tuple>, done: seq<Tuple>, fan: seq<Tuple>, rest: seq<Tuple>)
    requires GoodInputs(inputs, sources) && AllFit(inputs, sources, all) && all == done + (fan + rest)
    ensures AllFit(inputs, sources, fan) && all == (done + fan) + rest
  {
    forall k | 0 <= k < |fan| ensures TupleFits(inputs, sources, fan[k]) {
      assert fan[k] == all[|done| + k];
    }
  }

  /** Loading polygons is the same as loading the triangles of their fans. */
  lemma PolylistIsFanTriangles(inputs: Inputs, sources: Sources, vcounts: seq<nat>, p: seq<nat>)
    requires GoodInputs(inputs, sources) && GoodSources(sources)
    requires AllFit(inputs, sources, Fans(p, inputs.size, vcounts, 0))
    ensures var fans := Fans(p, inputs.size, vcounts, 0);
      && Tuples(Flatten(fans), inputs.size) == fans
      && Unified(inputs, sources, Tuples(Flatten(fans), inputs.size)) == Unified(inputs, sources, fans)
      && |Unified(inputs, sources, fans).indices| == FanCorners(vcounts[..Fitting(p, inputs.size, vcounts, 0)])
  {
    hide GoodSources, Unified;
    FansSizes(p, inputs.size, vcounts, 0);
    TuplesOfFlatten(Fans(p, inputs.size, vcounts, 0), inputs.size);
    FansCount(p, inputs.size, vcounts, 0);
    UnifiedKeepsPlaces(inputs, sources, Fans(p, inputs.size, vcounts, 0));
  }
}
