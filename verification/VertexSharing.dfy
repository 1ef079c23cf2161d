/** Which corners share a vertex of the output (graphics/src/ColladaLoader.cc, LoadTriangles and LoadPolylist). */
module VertexSharing {
  import opened ColladaSources
  import opened Unification

  // -------- corners by their resolved indices --------

  ghost predicate SameVertex(inputs: Inputs, sources: Sources, a: Tuple, b: Tuple)
    requires GoodInputs(inputs, sources) && |a| == |b| == inputs.size
  {
    VertexOf(inputs, sources, a) == VertexOf(inputs, sources, b)
  }

  /** The same normal and the same texture coordinates. */
  ghost predicate SameKey(inputs: Inputs, sources: Sources, a: Tuple, b: Tuple)
    requires GoodInputs(inputs, sources) && |a| == |b| == inputs.size
  {
    && (inputs.normalOffset.Some? ==> NormalOf(inputs, sources, a) == NormalOf(inputs, sources, b))
    && forall k :: 0 <= k < |inputs.texcoordOffsets| ==>
         TexcoordOf(inputs, sources, a, k) == TexcoordOf(inputs, sources, b, k)
  }

  lemma SharesByKey(inputs: Inputs, sources: Sources, a: Tuple, b: Tuple, iv: GeometryIndices)
    requires GoodInputs(inputs, sources) && |a| == |b| == inputs.size && CanShare(inputs, sources, a, iv)
    ensures CanShare(inputs, sources, b, iv) <==> SameKey(inputs, sources, a, b)
  {
    hide TexcoordIndexForSet, TexcoordOf, NormalOf;
    if SameKey(inputs, sources, a, b) {
      assert SameTexcoords(inputs, sources, b, iv);
    }
    if CanShare(inputs, sources, b, iv) {
      forall k | 0 <= k < |inputs.texcoordOffsets|
        ensures TexcoordOf(inputs, sources, a, k) == TexcoordOf(inputs, sources, b, k)
      {
        assert TexcoordIndexForSet(iv.texcoordIndex, inputs.texcoordOffsets[k].1) == TexcoordOf(inputs, sources, a, k);
      }
    }
  }

  ghost predicate Fit(inputs: Inputs, tuples: seq<Tuple>) {
    forall k :: 0 <= k < |tuples| ==> |tuples[k]| == inputs.size
  }

  /** Corner m is at the position of corner k, and so is no corner in between, nor k, with another normal or other
      texture coordinates. */
  ghost predicate Run(inputs: Inputs, sources: Sources, tuples: seq<Tuple>, k: nat, m: nat)
    requires GoodInputs(inputs, sources) && Fit(inputs, tuples) && k < m < |tuples|
  {
    && SameVertex(inputs, sources, tuples[k], tuples[m])
    && forall i :: k <= i < m && SameVertex(inputs, sources, tuples[i], tuples[m]) ==>
         SameKey(inputs, sources, tuples[i], tuples[m])
  }

  /** No later corner is at the position of corner k. */
  ghost predicate IsLatest(inputs: Inputs, sources: Sources, tuples: seq<Tuple>, k: nat)
    requires GoodInputs(inputs, sources) && Fit(inputs, tuples) && k < |tuples|
  {
    forall i :: k < i < |tuples| ==> !SameVertex(inputs, sources, tuples[i], tuples[k])
  }

  /** The one record of the position of corner k is that of its vertex. */
  ghost predicate IsRecorded(inputs: Inputs, sources: Sources, tuples: seq<Tuple>, out: Output, k: nat)
    requires GoodInputs(inputs, sources) && Fit(inputs, tuples) && k < |tuples| == |out.indices|
  {
    var ivs := RecordsOf(inputs, sources, out, tuples[k]);
    |ivs| == 1 && CanShare(inputs, sources, tuples[k], ivs[0]) && ivs[0].mappedIndex == out.indices[k]
  }

  /** The output is one in which corners share as they should. */
  ghost predicate Shares(inputs: Inputs, sources: Sources, tuples: seq<Tuple>, out: Output)
    requires GoodInputs(inputs, sources) && Fit(inputs, tuples)
  {
    && |out.indices| == |tuples|
    && (forall k :: 0 <= k < |tuples| ==> out.indices[k] < |out.vertices|)
    && (forall v :: v in out.vertexIndexMap ==>
          exists k :: 0 <= k < |tuples| && VertexOf(inputs, sources, tuples[k]) == v)
    && LatestRecorded(inputs, sources, tuples, out)
    && IndicesShared(inputs, sources, tuples, out)
  }

  ghost predicate LatestRecorded(inputs: Inputs, sources: Sources, tuples: seq<Tuple>, out: Output)
    requires GoodInputs(inputs, sources) && Fit(inputs, tuples) && |tuples| == |out.indices|
  {
    forall k :: 0 <= k < |tuples| && IsLatest(inputs, sources, tuples, k) ==> IsRecorded(inputs, sources, tuples, out, k)
  }

  ghost predicate IndicesShared(inputs: Inputs, sources: Sources, tuples: seq<Tuple>, out: Output)
    requires GoodInputs(inputs, sources) && Fit(inputs, tuples) && |tuples| == |out.indices|
  {
    forall k, m :: 0 <= k < m < |tuples| ==>
      (out.indices[k] == out.indices[m] <==> Run(inputs, sources, tuples, k, m))
  }

  lemma {:induction false} LatestAt(inputs: Inputs, sources: Sources, tuples: seq<Tuple>, v: nat) returns (l: nat)
    requires GoodInputs(inputs, sources) && Fit(inputs, tuples)
    requires exists k :: 0 <= k < |tuples| && VertexOf(inputs, sources, tuples[k]) == v
    ensures l < |tuples| && VertexOf(inputs, sources, tuples[l]) == v && IsLatest(inputs, sources, tuples, l)
  {
    hide VertexOf;
    var n := |tuples| - 1;
    if VertexOf(inputs, sources, tuples[n]) == v {
      l := n;
    } else {
      var k :| 0 <= k < |tuples| && VertexOf(inputs, sources, tuples[k]) == v;
      assert tuples[..n][k] == tuples[k];
      l := LatestAt(inputs, sources, tuples[..n], v);
      assert forall i :: 0 <= i < n ==> tuples[..n][i] == tuples[i];
      forall i | l < i < |tuples| ensures !SameVertex(inputs, sources, tuples[i], tuples[l]) {
        if i < n {
          assert !SameVertex(inputs, sources, tuples[..n][i], tuples[..n][l]);
        }
      }
    }
  }

  /** Going on after the latest corner at a position that has the same key. */
  lemma RunGoesOn(inputs: Inputs, sources: Sources, tuples: seq<Tuple>, k: nat, l: nat, n: nat)
    requires GoodInputs(inputs, sources) && Fit(inputs, tuples) && k < n && l < n == |tuples| - 1
    requires SameVertex(inputs, sources, tuples[l], tuples[n])
    requires forall i :: l < i < n ==> !SameVertex(inputs, sources, tuples[i], tuples[l])
    ensures Run(inputs, sources, tuples, k, n) <==>
      SameKey(inputs, sources, tuples[l], tuples[n]) && (k == l || (k < l && Run(inputs, sources, tuples, k, l)))
  {
    hide SameKey, VertexOf;
    KeysCompose(inputs, sources);
    hide GoodInputs;
    if Run(inputs, sources, tuples, k, n) {
      assert k <= l;
      assert SameKey(inputs, sources, tuples[l], tuples[n]);
      if k < l {
        forall i | k <= i < l && SameVertex(inputs, sources, tuples[i], tuples[l])
          ensures SameKey(inputs, sources, tuples[i], tuples[l])
        {
          assert SameKey(inputs, sources, tuples[i], tuples[n]);
        }
      }
    }
    if SameKey(inputs, sources, tuples[l], tuples[n]) && (k == l || (k < l && Run(inputs, sources, tuples, k, l))) {
      forall i | k <= i < n && SameVertex(inputs, sources, tuples[i], tuples[n])
        ensures SameKey(inputs, sources, tuples[i], tuples[n])
      {
        assert i <= l;
        if i < l {
          assert SameKey(inputs, sources, tuples[i], tuples[l]);
        }
      }
    }
  }

  lemma KeysCompose(inputs: Inputs, sources: Sources)
    requires GoodInputs(inputs, sources)
    ensures forall a: Tuple, b: Tuple, c: Tuple | |a| == |b| == |c| == inputs.size ::
      SameKey(inputs, sources, a, b) && SameKey(inputs, sources, b, c) ==> SameKey(inputs, sources, a, c)
    ensures forall a: Tuple, b: Tuple | |a| == |b| == inputs.size ::
      SameKey(inputs, sources, a, b) ==> SameKey(inputs, sources, b, a)
  {
    hide TexcoordOf, NormalOf;
  }

  // -------- one more corner --------

  lemma PrefixRun(inputs: Inputs, sources: Sources, tuples: seq<Tuple>, k: nat, m: nat)
    requires GoodInputs(inputs, sources) && Fit(inputs, tuples) && tuples != [] && k < m < |tuples| - 1
    ensures Run(inputs, sources, tuples[..|tuples| - 1], k, m) <==> Run(inputs, sources, tuples, k, m)
  {
    hide SameKey, SameVertex;
    var before := tuples[..|tuples| - 1];
    assert forall i :: 0 <= i <= m ==> before[i] == tuples[i];
    if Run(inputs, sources, before, k, m) {
      forall i | k <= i < m && SameVertex(inputs, sources, tuples[i], tuples[m])
        ensures SameKey(inputs, sources, tuples[i], tuples[m])
      {
        assert SameVertex(inputs, sources, before[i], before[m]);
      }
    }
    if Run(inputs, sources, tuples, k, m) {
      forall i | k <= i < m && SameVertex(inputs, sources, before[i], before[m])
        ensures SameKey(inputs, sources, before[i], before[m])
      {
        assert SameVertex(inputs, sources, tuples[i], tuples[m]);
      }
    }
  }

  lemma PrefixLatest(inputs: Inputs, sources: Sources, tuples: seq<Tuple>, k: nat)
    requires GoodInputs(inputs, sources) && Fit(inputs, tuples) && tuples != [] && k < |tuples| - 1
    ensures
      var n := |tuples| - 1;
      IsLatest(inputs, sources, tuples, k) <==>
      IsLatest(inputs, sources, tuples[..n], k) && !SameVertex(inputs, sources, tuples[n], tuples[k])
  {
    hide SameVertex;
    var n := |tuples| - 1;
    assert forall i :: 0 <= i < n ==> tuples[..n][i] == tuples[i];
    if IsLatest(inputs, sources, tuples[..n], k) && !SameVertex(inputs, sources, tuples[n], tuples[k]) {
      forall i | k < i < |tuples| ensures !SameVertex(inputs, sources, tuples[i], tuples[k]) {
        if i < n {
          assert !SameVertex(inputs, sources, tuples[..n][i], tuples[..n][k]);
        }
      }
    }
    if IsLatest(inputs, sources, tuples, k) {
      forall i | k < i < n ensures !SameVertex(inputs, sources, tuples[..n][i], tuples[..n][k]) {
        assert !SameVertex(inputs, sources, tuples[i], tuples[k]);
      }
    }
  }

  /** What the records of a position say: nothing is there yet, or the one record is that of the latest corner. */
  lemma FindLatest(inputs: Inputs, sources: Sources, tuples: seq<Tuple>, out: Output, t: Tuple)
    returns (found: bool, l: nat)
    requires GoodInputs(inputs, sources) && Fit(inputs, tuples) && |t| == inputs.size
    requires Shares(inputs, sources, tuples, out)
    ensures !found ==> RecordsOf(inputs, sources, out, t) == []
    ensures !found ==> forall i :: 0 <= i < |tuples| ==> !SameVertex(inputs, sources, tuples[i], t)
    ensures found ==>
      && l < |tuples| && SameVertex(inputs, sources, tuples[l], t) && IsLatest(inputs, sources, tuples, l)
      && IsRecorded(inputs, sources, tuples, out, l)
      && RecordsOf(inputs, sources, out, tuples[l]) == RecordsOf(inputs, sources, out, t)
  {
    hide Run, IsLatest, IsRecorded;
    l := 0;
    found := exists k :: 0 <= k < |tuples| && VertexOf(inputs, sources, tuples[k]) == VertexOf(inputs, sources, t);
    if found {
      l := LatestAt(inputs, sources, tuples, VertexOf(inputs, sources, t));
    }
  }

  /** Whether the new corner shares the index of corner k. */
  lemma NewIndex(inputs: Inputs, sources: Sources, tuples: seq<Tuple>, out: Output, after: Output, k: nat)
    requires GoodInputs(inputs, sources) && GoodSources(sources) && Fit(inputs, tuples) && k < |tuples| - 1
    requires TupleFits(inputs, sources, tuples[|tuples| - 1])
    requires Shares(inputs, sources, tuples[..|tuples| - 1], out)
    requires after == Step(inputs, sources, out, tuples[|tuples| - 1])
    ensures |after.indices| == |tuples|
    ensures after.indices[k] == after.indices[|tuples| - 1] <==> Run(inputs, sources, tuples, k, |tuples| - 1)
  {
    hide CanShare, SameKey, Run, GoodSources, AddTexcoords, SameVertex, IsLatest;
    var n := |tuples| - 1;
    var before, t := tuples[..n], tuples[n];
    assert forall i :: 0 <= i < n ==> before[i] == tuples[i];
    var found, l := FindLatest(inputs, sources, before, out, t);
    if found {
      var iv := RecordsOf(inputs, sources, out, t)[0];
      SharesByKey(inputs, sources, tuples[l], t, iv);
      LatestBefore(inputs, sources, tuples, l);
      RunGoesOn(inputs, sources, tuples, k, l, n);
      if k < l {
        PrefixRun(inputs, sources, tuples, k, l);
      } else if l < k {
        PrefixRun(inputs, sources, tuples, l, k);
        NoRunAfter(inputs, sources, tuples, l, k);
      }
    } else {
      NoRun(inputs, sources, tuples, k);
    }
  }

  lemma LatestBefore(inputs: Inputs, sources: Sources, tuples: seq<Tuple>, l: nat)
    requires GoodInputs(inputs, sources) && Fit(inputs, tuples) && l < |tuples| - 1
    requires IsLatest(inputs, sources, tuples[..|tuples| - 1], l)
    ensures forall i :: l < i < |tuples| - 1 ==> !SameVertex(inputs, sources, tuples[i], tuples[l])
  {
    hide SameVertex;
    var before := tuples[..|tuples| - 1];
    forall i | l < i < |tuples| - 1 ensures !SameVertex(inputs, sources, tuples[i], tuples[l]) {
      assert before[i] == tuples[i] && before[l] == tuples[l];
      assert !SameVertex(inputs, sources, before[i], before[l]);
    }
  }

  lemma NoRunAfter(inputs: Inputs, sources: Sources, tuples: seq<Tuple>, l: nat, k: nat)
    requires GoodInputs(inputs, sources) && Fit(inputs, tuples) && l < k < |tuples| - 1
    requires forall i :: l < i < |tuples| - 1 ==> !SameVertex(inputs, sources, tuples[i], tuples[l])
    ensures !Run(inputs, sources, tuples, l, k)
  {
    assert !SameVertex(inputs, sources, tuples[k], tuples[l]);
  }

  lemma NoRun(inputs: Inputs, sources: Sources, tuples: seq<Tuple>, k: nat)
    requires GoodInputs(inputs, sources) && Fit(inputs, tuples) && k < |tuples| - 1
    requires
      var n := |tuples| - 1;
      forall i :: 0 <= i < n ==> !SameVertex(inputs, sources, tuples[..n][i], tuples[n])
    ensures !Run(inputs, sources, tuples, k, |tuples| - 1)
  {
    assert tuples[..|tuples| - 1][k] == tuples[k];
  }

  /** The record of a new vertex is one that its own tuple can share. */
  lemma NewVertexShares(inputs: Inputs, sources: Sources, out: Output, tuple: Tuple)
    requires GoodInputs(inputs, sources) && GoodSources(sources) && TupleInRange(inputs, sources, tuple)
    ensures CanShare(inputs, sources, tuple, NewVertex(inputs, sources, out, tuple))
  {
    if inputs.normalOffset.Some? {
      NormalResolves(inputs, sources, tuple);
    }
    hide GoodSources, NormalOf, TexcoordOf, RecordedTexcoords, TexcoordIndexForSet;
    var record := NewVertex(inputs, sources, out, tuple);
    forall k | 0 <= k < |inputs.texcoordOffsets|
      ensures TexcoordIndexForSet(record.texcoordIndex, inputs.texcoordOffsets[k].1) == TexcoordOf(inputs, sources, tuple, k)
    {
      RecordedTexcoordFound(inputs, sources, tuple, |inputs.texcoordOffsets|, k);
    }
  }

  lemma NewIsRecorded(inputs: Inputs, sources: Sources, tuples: seq<Tuple>, out: Output, after: Output)
    requires GoodInputs(inputs, sources) && GoodSources(sources) && Fit(inputs, tuples) && tuples != []
    requires TupleInRange(inputs, sources, tuples[|tuples| - 1])
    requires Shares(inputs, sources, tuples[..|tuples| - 1], out)
    requires after == Step(inputs, sources, out, tuples[|tuples| - 1])
    ensures |after.indices| == |tuples| && IsRecorded(inputs, sources, tuples, after, |tuples| - 1)
  {
    var n := |tuples| - 1;
    hide GoodSources, CanShare, Run, IsLatest, AddTexcoords, HasNormal;
    var found, l := FindLatest(inputs, sources, tuples[..n], out, tuples[n]);
    NewVertexShares(inputs, sources, out, tuples[n]);
  }

  lemma OldIsRecorded(inputs: Inputs, sources: Sources, tuples: seq<Tuple>, out: Output, after: Output, k: nat)
    requires GoodInputs(inputs, sources) && GoodSources(sources) && Fit(inputs, tuples) && k < |tuples| - 1
    requires TupleFits(inputs, sources, tuples[|tuples| - 1])
    requires Shares(inputs, sources, tuples[..|tuples| - 1], out)
    requires after == Step(inputs, sources, out, tuples[|tuples| - 1])
    requires IsLatest(inputs, sources, tuples, k)
    ensures |after.indices| == |tuples| && IsRecorded(inputs, sources, tuples, after, k)
  {
    var n := |tuples| - 1;
    hide GoodSources, CanShare, Run, AddTexcoords, HasNormal;
    PrefixLatest(inputs, sources, tuples, k);
    hide IsLatest;
    assert tuples[..n][k] == tuples[k];
    assert IsRecorded(inputs, sources, tuples[..n], out, k);
  }

  lemma StepRecords(inputs: Inputs, sources: Sources, tuples: seq<Tuple>, out: Output)
    requires GoodInputs(inputs, sources) && GoodSources(sources) && Fit(inputs, tuples) && tuples != []
    requires TupleInRange(inputs, sources, tuples[|tuples| - 1])
    requires Shares(inputs, sources, tuples[..|tuples| - 1], out)
    ensures
      var after := Step(inputs, sources, out, tuples[|tuples| - 1]);
      |after.indices| == |tuples| && LatestRecorded(inputs, sources, tuples, after)
  {
    hide Step, Run, IsLatest, IsRecorded, GoodSources, GoodInputs, Shares;
    var n := |tuples| - 1;
    var after := Step(inputs, sources, out, tuples[n]);
    NewIsRecorded(inputs, sources, tuples, out, after);
    forall k | 0 <= k < |tuples| && IsLatest(inputs, sources, tuples, k)
      ensures IsRecorded(inputs, sources, tuples, after, k)
    {
      if k < n {
        OldIsRecorded(inputs, sources, tuples, out, after, k);
      }
    }
  }

  lemma StepIndices(inputs: Inputs, sources: Sources, tuples: seq<Tuple>, out: Output)
    requires GoodInputs(inputs, sources) && GoodSources(sources) && Fit(inputs, tuples) && tuples != []
    requires TupleInRange(inputs, sources, tuples[|tuples| - 1])
    requires Shares(inputs, sources, tuples[..|tuples| - 1], out)
    ensures
      var after := Step(inputs, sources, out, tuples[|tuples| - 1]);
      |after.indices| == |tuples| && IndicesShared(inputs, sources, tuples, after)
  {
    StepExtends(inputs, sources, tuples, out);
    var n := |tuples| - 1;
    assert IndicesShared(inputs, sources, tuples[..n], out);
    hide Step, Run, GoodSources, GoodInputs, Shares, VertexOf;
    var after := Step(inputs, sources, out, tuples[n]);
    forall k, m | 0 <= k < m < |tuples|
      ensures after.indices[k] == after.indices[m] <==> Run(inputs, sources, tuples, k, m)
    {
      if m == n {
        NewIndex(inputs, sources, tuples, out, after, k);
      } else {
        PrefixRun(inputs, sources, tuples, k, m);
        assert after.indices[..n][k] == after.indices[k] && after.indices[..n][m] == after.indices[m];
      }
    }
  }

  lemma StepShares(inputs: Inputs, sources: Sources, tuples: seq<Tuple>, out: Output)
    requires GoodInputs(inputs, sources) && GoodSources(sources) && Fit(inputs, tuples) && tuples != []
    requires TupleInRange(inputs, sources, tuples[|tuples| - 1])
    requires Shares(inputs, sources, tuples[..|tuples| - 1], out)
    ensures Shares(inputs, sources, tuples, Step(inputs, sources, out, tuples[|tuples| - 1]))
  {
    StepExtends(inputs, sources, tuples, out);
    StepRecords(inputs, sources, tuples, out);
    StepIndices(inputs, sources, tuples, out);
    hide Step, LatestRecorded, IndicesShared, GoodSources, VertexOf;
  }

  lemma StepExtends(inputs: Inputs, sources: Sources, tuples: seq<Tuple>, out: Output)
    requires GoodInputs(inputs, sources) && GoodSources(sources) && Fit(inputs, tuples) && tuples != []
    requires TupleFits(inputs, sources, tuples[|tuples| - 1])
    requires Shares(inputs, sources, tuples[..|tuples| - 1], out)
    ensures
      var n := |tuples| - 1;
      var after := Step(inputs, sources, out, tuples[n]);
      && |after.indices| == |tuples| && after.indices[..n] == out.indices
      && (forall k :: 0 <= k < |tuples| ==> after.indices[k] < |after.vertices|)
      && (forall v :: v in after.vertexIndexMap ==>
            exists k :: 0 <= k < |tuples| && VertexOf(inputs, sources, tuples[k]) == v)
  {
    var n := |tuples| - 1;
    hide GoodSources, CanShare, Run, IsLatest, AddTexcoords, HasNormal, VertexOf;
    var after := Step(inputs, sources, out, tuples[n]);
    var found, l := FindLatest(inputs, sources, tuples[..n], out, tuples[n]);
    forall v | v in after.vertexIndexMap
      ensures exists k :: 0 <= k < |tuples| && VertexOf(inputs, sources, tuples[k]) == v
    {
      if v in out.vertexIndexMap {
        var k :| 0 <= k < n && VertexOf(inputs, sources, tuples[..n][k]) == v;
        assert tuples[..n][k] == tuples[k];
      } else {
        assert VertexOf(inputs, sources, tuples[n]) == v;
      }
    }
  }

  lemma {:induction false} UnifiedShares(inputs: Inputs, sources: Sources, tuples: seq<Tuple>)
    requires GoodInputs(inputs, sources) && GoodSources(sources) && AllInRange(inputs, sources, tuples)
    ensures Fit(inputs, tuples) && Shares(inputs, sources, tuples, Unified(inputs, sources, tuples))
  {
    hide GoodSources, Step;
    if tuples != [] {
      var n := |tuples| - 1;
      UnifiedShares(inputs, sources, tuples[..n]);
      hide Shares;
      StepShares(inputs, sources, tuples, Unified(inputs, sources, tuples[..n]));
    }
  }

  // -------- by the values that are named --------

  ghost predicate SamePosition(inputs: Inputs, sources: Sources, a: Tuple, b: Tuple)
    requires GoodInputs(inputs, sources) && TupleInRange(inputs, sources, a) && TupleInRange(inputs, sources, b)
  {
    sources.positions[a[inputs.vertexOffset]] == sources.positions[b[inputs.vertexOffset]]
  }

  ghost predicate SameAttributes(inputs: Inputs, sources: Sources, a: Tuple, b: Tuple)
    requires GoodInputs(inputs, sources) && TupleInRange(inputs, sources, a) && TupleInRange(inputs, sources, b)
  {
    && (inputs.normalOffset.Some? ==>
          sources.normals[a[inputs.normalOffset.value]] == sources.normals[b[inputs.normalOffset.value]])
    && forall k :: 0 <= k < |inputs.texcoordOffsets| ==>
         NamedTexcoord(inputs, sources, a, k) == NamedTexcoord(inputs, sources, b, k)
  }

  lemma VertexByValue(inputs: Inputs, sources: Sources, a: Tuple, b: Tuple)
    requires GoodInputs(inputs, sources) && GoodSources(sources)
    requires TupleInRange(inputs, sources, a) && TupleInRange(inputs, sources, b)
    ensures SameVertex(inputs, sources, a, b) <==> SamePosition(inputs, sources, a, b)
  {
    ResolveIsCanonical(sources.positions, sources.positionDups, a[inputs.vertexOffset], b[inputs.vertexOffset]);
  }

  lemma TexcoordByValue(inputs: Inputs, sources: Sources, a: Tuple, b: Tuple, k: nat)
    requires GoodInputs(inputs, sources) && GoodSources(sources) && k < |inputs.texcoordOffsets|
    requires TupleInRange(inputs, sources, a) && TupleInRange(inputs, sources, b)
    ensures TexcoordOf(inputs, sources, a, k) == TexcoordOf(inputs, sources, b, k) <==>
            NamedTexcoord(inputs, sources, a, k) == NamedTexcoord(inputs, sources, b, k)
  {
    var (offset, s) := inputs.texcoordOffsets[k];
    ResolveIsCanonical(sources.texcoords[s], sources.texcoordDups[s], a[offset], b[offset]);
  }

  lemma KeyByValue(inputs: Inputs, sources: Sources, a: Tuple, b: Tuple)
    requires GoodInputs(inputs, sources) && GoodSources(sources)
    requires TupleInRange(inputs, sources, a) && TupleInRange(inputs, sources, b)
    ensures SameKey(inputs, sources, a, b) <==> SameAttributes(inputs, sources, a, b)
  {
    if inputs.normalOffset.Some? {
      ResolveIsCanonical(sources.normals, sources.normalDups,
                         a[inputs.normalOffset.value], b[inputs.normalOffset.value]);
    }
    forall k | 0 <= k < |inputs.texcoordOffsets|
      ensures TexcoordOf(inputs, sources, a, k) == TexcoordOf(inputs, sources, b, k) <==>
              NamedTexcoord(inputs, sources, a, k) == NamedTexcoord(inputs, sources, b, k)
    {
      TexcoordByValue(inputs, sources, a, b, k);
    }
    hide GoodSources, TexcoordOf, NamedTexcoord;
  }

  /**
    * Which corners share a vertex: two of them do exactly when they name the same position, and every corner from the
    * first up to the second that names this position names the same normal and texture coordinates too. So a corner
    * that differs in between ends the sharing, since only the latest record of a position is kept.
    */
  lemma SharesExactly(inputs: Inputs, sources: Sources, tuples: seq<Tuple>, k: nat, m: nat)
    requires GoodInputs(inputs, sources) && GoodSources(sources) && AllInRange(inputs, sources, tuples)
    requires k < m < |tuples|
    ensures
      var out := Unified(inputs, sources, tuples);
      && |out.indices| == |tuples|
      && (out.indices[k] == out.indices[m] <==>
            && SamePosition(inputs, sources, tuples[k], tuples[m])
            && forall i :: k <= i < m && SamePosition(inputs, sources, tuples[i], tuples[m]) ==>
                 SameAttributes(inputs, sources, tuples[i], tuples[m]))
  {
    hide GoodSources, Unified, SameKey, SameAttributes, SameVertex, SamePosition, IsLatest, IsRecorded, TupleInRange;
    UnifiedShares(inputs, sources, tuples);
    forall i | 0 <= i < |tuples|
      ensures SameVertex(inputs, sources, tuples[i], tuples[m]) <==> SamePosition(inputs, sources, tuples[i], tuples[m])
      ensures SameKey(inputs, sources, tuples[i], tuples[m]) <==> SameAttributes(inputs, sources, tuples[i], tuples[m])
    {
      VertexByValue(inputs, sources, tuples[i], tuples[m]);
      KeyByValue(inputs, sources, tuples[i], tuples[m]);
    }
  }
}
