/** Turning separate position, normal and texture coordinate indices into one index buffer
    (graphics/src/ColladaLoader.cc, LoadTriangles and LoadPolylist). */
module Unification {
  import opened Vectors
  import opened ColladaSources

  datatype Uv = Uv(u: real, v: real)

  datatype Option<T> = None | Some(value: T)

  /** The loaded sources with their duplicate maps. */
  datatype Sources = Sources(
    positions: seq<Vec>, positionDups: map<nat, nat>,
    normals: seq<Vec>, normalDups: map<nat, nat>,
    texcoords: map<nat, seq<Uv>>, texcoordDups: map<nat, map<nat, nat>>)

  /**
    * Where in an index tuple each input is; a texture coordinate set is paired with its offset. The record of a vertex
    * that is given no normal leaves its normal index unset: what it then holds is `unset`, which can be anything.
    */
  datatype Inputs = Inputs(
    size: nat, vertexOffset: nat, normalOffset: Option<nat>, texcoordOffsets: seq<(nat, nat)>, unset: nat -> nat)

  /** What a vertex of the output was made from. */
  datatype GeometryIndices = GeometryIndices(
    vertexIndex: nat, normalIndex: nat, texcoordIndex: seq<(nat, nat)>, mappedIndex: nat)

  datatype Output = Output(
    vertices: seq<Vec>, normals: seq<Vec>, texcoords: map<nat, seq<Uv>>, indices: seq<nat>,
    vertexIndexMap: map<nat, seq<GeometryIndices>>)

  const EMPTY := Output([], [], map[], [], map[])

  type Tuple = seq<nat>

  // -------- what the loader asks of its input --------

  predicate GoodInputs(inputs: Inputs, sources: Sources) {
    && inputs.vertexOffset < inputs.size
    && (inputs.normalOffset.Some? ==> inputs.normalOffset.value < inputs.size)
    && (forall k :: 0 <= k < |inputs.texcoordOffsets| ==>
          && inputs.texcoordOffsets[k].0 < inputs.size
          && inputs.texcoordOffsets[k].1 in sources.texcoords
          && inputs.texcoordOffsets[k].1 in sources.texcoordDups)
    && (forall j, k :: 0 <= j < k < |inputs.texcoordOffsets| ==> inputs.texcoordOffsets[j].1 != inputs.texcoordOffsets[k].1)
  }

  ghost predicate GoodSources(sources: Sources) {
    && MapsDuplicates(sources.positions, sources.positionDups)
    && MapsDuplicates(sources.normals, sources.normalDups)
    && forall s :: s in sources.texcoords && s in sources.texcoordDups ==>
         MapsDuplicates(sources.texcoords[s], sources.texcoordDups[s])
  }

  /** The position and the texture coordinates are there; the normal need not be. */
  predicate TupleFits(inputs: Inputs, sources: Sources, tuple: Tuple)
    requires GoodInputs(inputs, sources)
  {
    && |tuple| == inputs.size
    && tuple[inputs.vertexOffset] < |sources.positions|
    && forall k :: 0 <= k < |inputs.texcoordOffsets| ==>
         tuple[inputs.texcoordOffsets[k].0] < |sources.texcoords[inputs.texcoordOffsets[k].1]|
  }

  predicate TupleInRange(inputs: Inputs, sources: Sources, tuple: Tuple)
    requires GoodInputs(inputs, sources)
  {
    && TupleFits(inputs, sources, tuple)
    && (inputs.normalOffset.Some? ==> tuple[inputs.normalOffset.value] < |sources.normals|)
  }

  // -------- one corner --------

  function VertexOf(inputs: Inputs, sources: Sources, tuple: Tuple): nat
    requires GoodInputs(inputs, sources) && |tuple| == inputs.size
  {
    Resolve(sources.positionDups, tuple[inputs.vertexOffset])
  }

  function NormalOf(inputs: Inputs, sources: Sources, tuple: Tuple): nat
    requires GoodInputs(inputs, sources) && |tuple| == inputs.size && inputs.normalOffset.Some?
  {
    Resolve(sources.normalDups, tuple[inputs.normalOffset.value])
  }

  function TexcoordOf(inputs: Inputs, sources: Sources, tuple: Tuple, k: nat): nat
    requires GoodInputs(inputs, sources) && |tuple| == inputs.size && k < |inputs.texcoordOffsets|
  {
    Resolve(sources.texcoordDups[inputs.texcoordOffsets[k].1], tuple[inputs.texcoordOffsets[k].0])
  }

  /** The index recorded for a texture coordinate set, 0 if there is none. */
  function TexcoordIndexForSet(indices: seq<(nat, nat)>, texcoordSet: nat): nat {
    if indices == [] then 0
    else if indices[0].0 == texcoordSet then indices[0].1
    else TexcoordIndexForSet(indices[1..], texcoordSet)
  }

  predicate SameTexcoords(inputs: Inputs, sources: Sources, tuple: Tuple, iv: GeometryIndices)
    requires GoodInputs(inputs, sources) && |tuple| == inputs.size
  {
    forall k :: 0 <= k < |inputs.texcoordOffsets| ==>
      TexcoordIndexForSet(iv.texcoordIndex, inputs.texcoordOffsets[k].1) == TexcoordOf(inputs, sources, tuple, k)
  }

  predicate CanShare(inputs: Inputs, sources: Sources, tuple: Tuple, iv: GeometryIndices)
    requires GoodInputs(inputs, sources) && |tuple| == inputs.size
  {
    && (inputs.normalOffset.Some? ==> iv.normalIndex == NormalOf(inputs, sources, tuple))
    && SameTexcoords(inputs, sources, tuple, iv)
  }

  /** The position of the first record that can be shared, or the number of records. */
  function FirstShared(inputs: Inputs, sources: Sources, tuple: Tuple, ivs: seq<GeometryIndices>): (i: nat)
    requires GoodInputs(inputs, sources) && |tuple| == inputs.size
    ensures i <= |ivs| && (i < |ivs| ==> CanShare(inputs, sources, tuple, ivs[i]))
    ensures forall j :: 0 <= j < i ==> !CanShare(inputs, sources, tuple, ivs[j])
  {
    if ivs == [] || CanShare(inputs, sources, tuple, ivs[0]) then 0
    else 1 + FirstShared(inputs, sources, tuple, ivs[1..])
  }

  function Column(texcoords: map<nat, seq<Uv>>, texcoordSet: nat): seq<Uv> {
    if texcoordSet in texcoords then texcoords[texcoordSet] else []
  }

  /** The texture coordinate that a tuple names in its k-th set. */
  function NamedTexcoord(inputs: Inputs, sources: Sources, tuple: Tuple, k: nat): Uv
    requires GoodInputs(inputs, sources) && TupleFits(inputs, sources, tuple) && k < |inputs.texcoordOffsets|
  {
    sources.texcoords[inputs.texcoordOffsets[k].1][tuple[inputs.texcoordOffsets[k].0]]
  }

  lemma TexcoordResolves(inputs: Inputs, sources: Sources, tuple: Tuple, k: nat)
    requires GoodInputs(inputs, sources) && GoodSources(sources) && TupleFits(inputs, sources, tuple)
    requires k < |inputs.texcoordOffsets|
    ensures var s, i := inputs.texcoordOffsets[k].1, TexcoordOf(inputs, sources, tuple, k);
      i < |sources.texcoords[s]| && sources.texcoords[s][i] == NamedTexcoord(inputs, sources, tuple, k)
  {
  }

  /** The output after the first n texture coordinate sets of a new vertex are appended. */
  function AddTexcoords(inputs: Inputs, sources: Sources, tuple: Tuple, texcoords: map<nat, seq<Uv>>, n: nat)
    : map<nat, seq<Uv>>
    requires GoodInputs(inputs, sources) && GoodSources(sources) && TupleFits(inputs, sources, tuple)
    requires n <= |inputs.texcoordOffsets|
  {
    if n == 0 then texcoords
    else
      var before := AddTexcoords(inputs, sources, tuple, texcoords, n - 1);
      var s := inputs.texcoordOffsets[n - 1].1;
      before[s := Column(before, s) + [sources.texcoords[s][TexcoordOf(inputs, sources, tuple, n - 1)]]]
  }

  function RecordedTexcoords(inputs: Inputs, sources: Sources, tuple: Tuple, n: nat): seq<(nat, nat)>
    requires GoodInputs(inputs, sources) && |tuple| == inputs.size && n <= |inputs.texcoordOffsets|
  {
    seq(n, k requires 0 <= k < n => (inputs.texcoordOffsets[k].1, TexcoordOf(inputs, sources, tuple, k)))
  }

  /** Whether a new vertex is given a normal: its index, once resolved, is in range. */
  predicate HasNormal(inputs: Inputs, sources: Sources, tuple: Tuple)
    requires GoodInputs(inputs, sources) && |tuple| == inputs.size
  {
    inputs.normalOffset.Some? && NormalOf(inputs, sources, tuple) < |sources.normals|
  }

  function NewVertex(inputs: Inputs, sources: Sources, out: Output, tuple: Tuple): GeometryIndices
    requires GoodInputs(inputs, sources) && TupleFits(inputs, sources, tuple)
  {
    var normal := if HasNormal(inputs, sources, tuple) then NormalOf(inputs, sources, tuple)
                  else inputs.unset(|out.vertices|);
    GeometryIndices(VertexOf(inputs, sources, tuple), normal,
                    RecordedTexcoords(inputs, sources, tuple, |inputs.texcoordOffsets|), |out.vertices|)
  }

  /** The output after a corner that shares no vertex. */
  ghost function Appended(inputs: Inputs, sources: Sources, out: Output, tuple: Tuple): Output
    requires GoodInputs(inputs, sources) && GoodSources(sources) && TupleFits(inputs, sources, tuple)
  {
    var record := NewVertex(inputs, sources, out, tuple);
    Output(out.vertices + [sources.positions[record.vertexIndex]],
           if HasNormal(inputs, sources, tuple) then out.normals + [sources.normals[record.normalIndex]] else out.normals,
           AddTexcoords(inputs, sources, tuple, out.texcoords, |inputs.texcoordOffsets|),
           out.indices + [|out.vertices|],
           out.vertexIndexMap[record.vertexIndex := [record]])
  }

  /** The records of the position that a tuple names. */
  function RecordsOf(inputs: Inputs, sources: Sources, out: Output, tuple: Tuple): seq<GeometryIndices>
    requires GoodInputs(inputs, sources) && |tuple| == inputs.size
  {
    var vertex := VertexOf(inputs, sources, tuple);
    if vertex in out.vertexIndexMap then out.vertexIndexMap[vertex] else []
  }

  /** The output after one more corner. */
  ghost function Step(inputs: Inputs, sources: Sources, out: Output, tuple: Tuple): Output
    requires GoodInputs(inputs, sources) && GoodSources(sources) && TupleFits(inputs, sources, tuple)
  {
    var ivs := RecordsOf(inputs, sources, out, tuple);
    var shared := FirstShared(inputs, sources, tuple, ivs);
    if shared < |ivs| then out.(indices := out.indices + [ivs[shared].mappedIndex])
    else Appended(inputs, sources, out, tuple)
  }

  ghost predicate AllFit(inputs: Inputs, sources: Sources, tuples: seq<Tuple>)
    requires GoodInputs(inputs, sources)
  {
    forall k :: 0 <= k < |tuples| ==> TupleFits(inputs, sources, tuples[k])
  }

  ghost predicate AllInRange(inputs: Inputs, sources: Sources, tuples: seq<Tuple>)
    requires GoodInputs(inputs, sources)
  {
    forall k :: 0 <= k < |tuples| ==> TupleInRange(inputs, sources, tuples[k])
  }

  ghost function Unified(inputs: Inputs, sources: Sources, tuples: seq<Tuple>): Output
    requires GoodInputs(inputs, sources) && GoodSources(sources) && AllFit(inputs, sources, tuples)
  {
    if tuples == [] then EMPTY
    else
      var n := |tuples| - 1;
      Step(inputs, sources, Unified(inputs, sources, tuples[..n]), tuples[n])
  }

  // -------- every corner keeps its position and its texture coordinates --------

  /** Vertex idx of the output has the position and the texture coordinates that the tuple names. */
  ghost predicate Places(inputs: Inputs, sources: Sources, out: Output, idx: nat, tuple: Tuple)
    requires GoodInputs(inputs, sources) && TupleFits(inputs, sources, tuple)
  {
    && idx < |out.vertices|
    && out.vertices[idx] == sources.positions[tuple[inputs.vertexOffset]]
    && forall k :: 0 <= k < |inputs.texcoordOffsets| ==>
         var column := Column(out.texcoords, inputs.texcoordOffsets[k].1);
         idx < |column| && column[idx] == NamedTexcoord(inputs, sources, tuple, k)
  }

  /** The texture coordinates have one entry a vertex in each set. */
  ghost predicate SameLengths(inputs: Inputs, out: Output) {
    forall k :: 0 <= k < |inputs.texcoordOffsets| ==>
      |Column(out.texcoords, inputs.texcoordOffsets[k].1)| == |out.vertices|
  }

  /** A record describes the vertex it is mapped to. */
  ghost predicate Describes(inputs: Inputs, sources: Sources, out: Output, vertex: nat, iv: GeometryIndices)
    requires GoodInputs(inputs, sources)
  {
    && iv.mappedIndex < |out.vertices|
    && vertex < |sources.positions| && out.vertices[iv.mappedIndex] == sources.positions[vertex]
    && forall k :: 0 <= k < |inputs.texcoordOffsets| ==>
         var s := inputs.texcoordOffsets[k].1;
         var i := TexcoordIndexForSet(iv.texcoordIndex, s);
         iv.mappedIndex < |Column(out.texcoords, s)| && i < |sources.texcoords[s]| &&
         Column(out.texcoords, s)[iv.mappedIndex] == sources.texcoords[s][i]
  }

  ghost predicate Records(inputs: Inputs, sources: Sources, out: Output)
    requires GoodInputs(inputs, sources)
  {
    forall vertex, i :: vertex in out.vertexIndexMap && 0 <= i < |out.vertexIndexMap[vertex]| ==>
      Describes(inputs, sources, out, vertex, out.vertexIndexMap[vertex][i])
  }

  /** Nothing that was appended is ever changed. */
  ghost predicate Extends(inputs: Inputs, a: Output, b: Output) {
    && a.vertices <= b.vertices && a.normals <= b.normals && a.indices <= b.indices
    && forall k :: 0 <= k < |inputs.texcoordOffsets| ==>
         Column(a.texcoords, inputs.texcoordOffsets[k].1) <= Column(b.texcoords, inputs.texcoordOffsets[k].1)
  }

  lemma {:induction false} AddTexcoordsAppends(inputs: Inputs, sources: Sources, tuple: Tuple,
                                               texcoords: map<nat, seq<Uv>>, n: nat, k: nat)
    requires GoodInputs(inputs, sources) && GoodSources(sources) && TupleFits(inputs, sources, tuple)
    requires n <= |inputs.texcoordOffsets| && k < |inputs.texcoordOffsets|
    ensures Column(AddTexcoords(inputs, sources, tuple, texcoords, n), inputs.texcoordOffsets[k].1)
         == Column(texcoords, inputs.texcoordOffsets[k].1)
              + (if k < n then [NamedTexcoord(inputs, sources, tuple, k)] else [])
  {
    hide GoodSources, Column, NamedTexcoord, TexcoordOf;
    if n != 0 {
      AddTexcoordsAppends(inputs, sources, tuple, texcoords, n - 1, k);
      TexcoordResolves(inputs, sources, tuple, n - 1);
      ColumnGrows(AddTexcoords(inputs, sources, tuple, texcoords, n - 1), inputs.texcoordOffsets[n - 1].1,
                  NamedTexcoord(inputs, sources, tuple, n - 1), inputs.texcoordOffsets[k].1);
      assert inputs.texcoordOffsets[k].1 == inputs.texcoordOffsets[n - 1].1 <==> k == n - 1;
    }
  }

  lemma ColumnGrows(texcoords: map<nat, seq<Uv>>, s: nat, uv: Uv, t: nat)
    ensures Column(texcoords[s := Column(texcoords, s) + [uv]], t) == Column(texcoords, t) + (if t == s then [uv] else [])
  {
  }

  lemma {:induction false} RecordedTexcoordFound(inputs: Inputs, sources: Sources, tuple: Tuple, n: nat, k: nat)
    requires GoodInputs(inputs, sources) && |tuple| == inputs.size && k < n <= |inputs.texcoordOffsets|
    ensures TexcoordIndexForSet(RecordedTexcoords(inputs, sources, tuple, n), inputs.texcoordOffsets[k].1)
         == TexcoordOf(inputs, sources, tuple, k)
  {
    FoundAt(RecordedTexcoords(inputs, sources, tuple, n), k);
  }

  lemma {:induction false} FoundAt(indices: seq<(nat, nat)>, k: nat)
    requires k < |indices| && forall i, j :: 0 <= i < j < |indices| ==> indices[i].0 != indices[j].0
    ensures TexcoordIndexForSet(indices, indices[k].0) == indices[k].1
  {
    if k != 0 {
      assert indices[0].0 != indices[k].0;
      FoundAt(indices[1..], k - 1);
    }
  }

  lemma ExtendsKeepsPlace(inputs: Inputs, sources: Sources, a: Output, b: Output, idx: nat, tuple: Tuple)
    requires GoodInputs(inputs, sources) && TupleFits(inputs, sources, tuple)
    requires Extends(inputs, a, b) && Places(inputs, sources, a, idx, tuple)
    ensures Places(inputs, sources, b, idx, tuple)
  {
  }

  lemma ExtendsKeepsRecord(inputs: Inputs, sources: Sources, a: Output, b: Output, vertex: nat, iv: GeometryIndices)
    requires GoodInputs(inputs, sources)
    requires Extends(inputs, a, b) && Describes(inputs, sources, a, vertex, iv)
    ensures Describes(inputs, sources, b, vertex, iv)
  {
  }

  /** A record with the texture coordinates of a tuple is mapped to a vertex in the tuple's place. */
  lemma SharedPlace(inputs: Inputs, sources: Sources, out: Output, tuple: Tuple, iv: GeometryIndices)
    requires GoodInputs(inputs, sources) && GoodSources(sources) && TupleFits(inputs, sources, tuple)
    requires Describes(inputs, sources, out, VertexOf(inputs, sources, tuple), iv)
    requires SameTexcoords(inputs, sources, tuple, iv)
    ensures Places(inputs, sources, out, iv.mappedIndex, tuple)
  {
    ResolveIsCanonical(sources.positions, sources.positionDups, tuple[inputs.vertexOffset], 0);
    hide GoodSources;
    forall k | 0 <= k < |inputs.texcoordOffsets|
      ensures
        var column := Column(out.texcoords, inputs.texcoordOffsets[k].1);
        iv.mappedIndex < |column| && column[iv.mappedIndex] == NamedTexcoord(inputs, sources, tuple, k)
    {
      TexcoordResolves(inputs, sources, tuple, k);
    }
  }

  lemma AppendedTexcoord(inputs: Inputs, sources: Sources, out: Output, tuple: Tuple, k: nat)
    requires GoodInputs(inputs, sources) && GoodSources(sources) && TupleFits(inputs, sources, tuple)
    requires k < |inputs.texcoordOffsets|
    ensures var s := inputs.texcoordOffsets[k].1;
      Column(Appended(inputs, sources, out, tuple).texcoords, s) ==
      Column(out.texcoords, s) + [NamedTexcoord(inputs, sources, tuple, k)]
    ensures TexcoordIndexForSet(NewVertex(inputs, sources, out, tuple).texcoordIndex, inputs.texcoordOffsets[k].1)
         == TexcoordOf(inputs, sources, tuple, k)
  {
    hide Column, AddTexcoords, TexcoordIndexForSet, TexcoordOf;
    AddTexcoordsAppends(inputs, sources, tuple, out.texcoords, |inputs.texcoordOffsets|, k);
    RecordedTexcoordFound(inputs, sources, tuple, |inputs.texcoordOffsets|, k);
  }

  /** The vertex of a tuple is that of its position. */
  lemma PositionResolves(inputs: Inputs, sources: Sources, tuple: Tuple)
    requires GoodInputs(inputs, sources) && GoodSources(sources) && TupleFits(inputs, sources, tuple)
    ensures VertexOf(inputs, sources, tuple) < |sources.positions|
    ensures sources.positions[VertexOf(inputs, sources, tuple)] == sources.positions[tuple[inputs.vertexOffset]]
  {
    ResolveIsCanonical(sources.positions, sources.positionDups, tuple[inputs.vertexOffset], 0);
  }

  lemma AppendedPlaces(inputs: Inputs, sources: Sources, out: Output, tuple: Tuple)
    requires GoodInputs(inputs, sources) && GoodSources(sources) && TupleFits(inputs, sources, tuple)
    requires SameLengths(inputs, out)
    ensures var after, record := Appended(inputs, sources, out, tuple), NewVertex(inputs, sources, out, tuple);
      && Extends(inputs, out, after) && SameLengths(inputs, after)
      && Describes(inputs, sources, after, VertexOf(inputs, sources, tuple), record)
      && SameTexcoords(inputs, sources, tuple, record)
  {
    var after, record := Appended(inputs, sources, out, tuple), NewVertex(inputs, sources, out, tuple);
    PositionResolves(inputs, sources, tuple);
    hide GoodSources, Column, TexcoordIndexForSet, AddTexcoords, RecordedTexcoords, TexcoordOf, NamedTexcoord;
    hide HasNormal, VertexOf;
    forall k | 0 <= k < |inputs.texcoordOffsets|
      ensures var s, i := inputs.texcoordOffsets[k].1, TexcoordOf(inputs, sources, tuple, k);
        && Column(after.texcoords, s) == Column(out.texcoords, s) + [NamedTexcoord(inputs, sources, tuple, k)]
        && TexcoordIndexForSet(record.texcoordIndex, s) == i
        && i < |sources.texcoords[s]| && sources.texcoords[s][i] == NamedTexcoord(inputs, sources, tuple, k)
    {
      AppendedTexcoord(inputs, sources, out, tuple, k);
      TexcoordResolves(inputs, sources, tuple, k);
    }
  }

  /** Records that are kept, and one that is new, describe their vertices afterwards. */
  lemma RecordsKept(inputs: Inputs, sources: Sources, out: Output, after: Output, vertex: nat, ivs: seq<GeometryIndices>)
    requires GoodInputs(inputs, sources) && Records(inputs, sources, out) && Extends(inputs, out, after)
    requires after.vertexIndexMap == out.vertexIndexMap ||
      (after.vertexIndexMap == out.vertexIndexMap[vertex := ivs] && |ivs| == 1 &&
       Describes(inputs, sources, after, vertex, ivs[0]))
    ensures Records(inputs, sources, after)
  {
    hide Describes, Extends;
    forall v, i | v in after.vertexIndexMap && 0 <= i < |after.vertexIndexMap[v]|
      ensures Describes(inputs, sources, after, v, after.vertexIndexMap[v][i])
    {
      if after.vertexIndexMap == out.vertexIndexMap || v != vertex {
        ExtendsKeepsRecord(inputs, sources, out, after, v, out.vertexIndexMap[v][i]);
      }
    }
  }

  /** One corner: an index is added, and it stands for the tuple's place; nothing else changes its meaning. */
  lemma StepKeepsPlaces(inputs: Inputs, sources: Sources, out: Output, tuple: Tuple)
    requires GoodInputs(inputs, sources) && GoodSources(sources) && TupleFits(inputs, sources, tuple)
    requires SameLengths(inputs, out) && Records(inputs, sources, out)
    ensures var after := Step(inputs, sources, out, tuple);
      && SameLengths(inputs, after) && Records(inputs, sources, after) && Extends(inputs, out, after)
      && |after.indices| == |out.indices| + 1
      && Places(inputs, sources, after, after.indices[|out.indices|], tuple)
  {
    hide GoodSources, Describes, SameTexcoords, Places, AddTexcoords, HasNormal, Column;
    var ivs := RecordsOf(inputs, sources, out, tuple);
    var shared := FirstShared(inputs, sources, tuple, ivs);
    var after := Step(inputs, sources, out, tuple);
    if shared < |ivs| {
      RecordsKept(inputs, sources, out, after, 0, []);
      assert Describes(inputs, sources, after, VertexOf(inputs, sources, tuple), ivs[shared]);
      SharedPlace(inputs, sources, after, tuple, ivs[shared]);
    } else {
      hide SameLengths, Extends;
      var record := NewVertex(inputs, sources, out, tuple);
      AppendedPlaces(inputs, sources, out, tuple);
      RecordsKept(inputs, sources, out, after, VertexOf(inputs, sources, tuple), [record]);
      SharedPlace(inputs, sources, after, tuple, record);
    }
  }

  /** One index is emitted for each tuple, in order, and it points at a vertex in the tuple's place. */
  lemma {:induction false} UnifiedKeepsPlaces(inputs: Inputs, sources: Sources, tuples: seq<Tuple>)
    requires GoodInputs(inputs, sources) && GoodSources(sources) && AllFit(inputs, sources, tuples)
    ensures var out := Unified(inputs, sources, tuples);
      && SameLengths(inputs, out) && Records(inputs, sources, out)
      && |out.indices| == |tuples|
      && forall k :: 0 <= k < |tuples| ==> Places(inputs, sources, out, out.indices[k], tuples[k])
  {
    hide GoodSources, Places, Extends, Step;
    if tuples == [] {
      hide Describes;
    } else {
      var n := |tuples| - 1;
      UnifiedKeepsPlaces(inputs, sources, tuples[..n]);
      hide SameLengths, Records;
      var before := Unified(inputs, sources, tuples[..n]);
      StepKeepsPlaces(inputs, sources, before, tuples[n]);
      var out := Unified(inputs, sources, tuples);
      assert before.indices <= out.indices by { ExtendsIndices(inputs, before, out); }
      forall k | 0 <= k < |tuples| ensures Places(inputs, sources, out, out.indices[k], tuples[k]) {
        if k < n {
          assert tuples[..n][k] == tuples[k];
          ExtendsKeepsPlace(inputs, sources, before, out, before.indices[k], tuples[k]);
        }
      }
    }
  }

  lemma ExtendsIndices(inputs: Inputs, a: Output, b: Output)
    requires Extends(inputs, a, b)
    ensures a.indices <= b.indices
  {
  }

  // -------- and its normal, when it names one --------

  /** Vertex idx of the output has the normal that the tuple names. */
  ghost predicate Faces(inputs: Inputs, sources: Sources, out: Output, idx: nat, tuple: Tuple)
    requires GoodInputs(inputs, sources) && TupleInRange(inputs, sources, tuple)
  {
    inputs.normalOffset.Some? ==>
      idx < |out.normals| && out.normals[idx] == sources.normals[tuple[inputs.normalOffset.value]]
  }

  /** There is one normal a vertex. */
  ghost predicate Aligned(inputs: Inputs, out: Output) {
    inputs.normalOffset.Some? ==> |out.normals| == |out.vertices|
  }

  /** The normal index of a record is in range and that of the vertex it is mapped to. */
  ghost predicate DescribesNormal(inputs: Inputs, sources: Sources, out: Output, iv: GeometryIndices) {
    inputs.normalOffset.Some? ==>
      && iv.mappedIndex < |out.normals| && iv.normalIndex < |sources.normals|
      && out.normals[iv.mappedIndex] == sources.normals[iv.normalIndex]
  }

  ghost predicate NormalRecords(inputs: Inputs, sources: Sources, out: Output) {
    forall vertex, i :: vertex in out.vertexIndexMap && 0 <= i < |out.vertexIndexMap[vertex]| ==>
      DescribesNormal(inputs, sources, out, out.vertexIndexMap[vertex][i])
  }

  /** The resolved index of a normal is in range exactly when the index is, and then it is that of the same normal. */
  lemma NormalResolves(inputs: Inputs, sources: Sources, tuple: Tuple)
    requires GoodInputs(inputs, sources) && GoodSources(sources) && TupleFits(inputs, sources, tuple)
    requires inputs.normalOffset.Some?
    ensures HasNormal(inputs, sources, tuple) <==> TupleInRange(inputs, sources, tuple)
    ensures HasNormal(inputs, sources, tuple) ==>
      sources.normals[NormalOf(inputs, sources, tuple)] == sources.normals[tuple[inputs.normalOffset.value]]
  {
    if TupleInRange(inputs, sources, tuple) {
      ResolveIsCanonical(sources.normals, sources.normalDups, tuple[inputs.normalOffset.value], 0);
    }
  }

  lemma StepKeepsNormals(inputs: Inputs, sources: Sources, out: Output, tuple: Tuple)
    requires GoodInputs(inputs, sources) && GoodSources(sources) && TupleInRange(inputs, sources, tuple)
    requires Aligned(inputs, out) && NormalRecords(inputs, sources, out)
    ensures var after := Step(inputs, sources, out, tuple);
      && Aligned(inputs, after) && NormalRecords(inputs, sources, after) && out.normals <= after.normals
      && |after.indices| == |out.indices| + 1 && out.indices <= after.indices
      && Faces(inputs, sources, after, after.indices[|out.indices|], tuple)
  {
    if inputs.normalOffset.Some? {
      NormalResolves(inputs, sources, tuple);
    }
    hide GoodSources, AddTexcoords, SameTexcoords, HasNormal, NormalOf, VertexOf;
    var ivs := RecordsOf(inputs, sources, out, tuple);
    if FirstShared(inputs, sources, tuple, ivs) == |ivs| {
      var after := Appended(inputs, sources, out, tuple);
      assert DescribesNormal(inputs, sources, after, NewVertex(inputs, sources, out, tuple));
    }
  }

  lemma {:induction false} UnifiedKeepsNormals(inputs: Inputs, sources: Sources, tuples: seq<Tuple>)
    requires GoodInputs(inputs, sources) && GoodSources(sources) && AllInRange(inputs, sources, tuples)
    ensures var out := Unified(inputs, sources, tuples);
      && Aligned(inputs, out) && NormalRecords(inputs, sources, out) && |out.indices| == |tuples|
      && forall k :: 0 <= k < |tuples| ==> Faces(inputs, sources, out, out.indices[k], tuples[k])
  {
    hide GoodSources, Step, TupleFits, DescribesNormal;
    if tuples != [] {
      var n := |tuples| - 1;
      var before, out := Unified(inputs, sources, tuples[..n]), Unified(inputs, sources, tuples);
      UnifiedKeepsNormals(inputs, sources, tuples[..n]);
      hide NormalRecords;
      StepKeepsNormals(inputs, sources, before, tuples[n]);
      forall k | 0 <= k < |tuples| ensures Faces(inputs, sources, out, out.indices[k], tuples[k]) {
        if k < n {
          assert tuples[..n][k] == tuples[k] && Faces(inputs, sources, before, before.indices[k], tuples[k]);
        }
      }
    }
  }

  /** Vertex idx of the output has the position, normal and texture coordinates that the tuple names. */
  ghost predicate Means(inputs: Inputs, sources: Sources, out: Output, idx: nat, tuple: Tuple)
    requires GoodInputs(inputs, sources) && TupleInRange(inputs, sources, tuple)
  {
    Places(inputs, sources, out, idx, tuple) && Faces(inputs, sources, out, idx, tuple)
  }

  /**
    * Unification keeps the meaning of every corner: one index is emitted for each tuple, in order, and it points at a
    * vertex with the position, the normal and the texture coordinate of each set that the tuple named.
    */
  lemma UnifiedKeepsMeaning(inputs: Inputs, sources: Sources, tuples: seq<Tuple>)
    requires GoodInputs(inputs, sources) && GoodSources(sources) && AllInRange(inputs, sources, tuples)
    ensures var out := Unified(inputs, sources, tuples);
      && SameLengths(inputs, out) && Aligned(inputs, out)
      && |out.indices| == |tuples|
      && forall k :: 0 <= k < |tuples| ==> Means(inputs, sources, out, out.indices[k], tuples[k])
  {
    hide GoodSources, Places, Faces, Unified;
    UnifiedKeepsPlaces(inputs, sources, tuples);
    UnifiedKeepsNormals(inputs, sources, tuples);
  }

  /** A tuple with a normal out of range shares no record that names a normal, and its new vertex is given none. */
  lemma StepWithoutNormal(inputs: Inputs, sources: Sources, out: Output, tuple: Tuple)
    requires GoodInputs(inputs, sources) && GoodSources(sources) && TupleFits(inputs, sources, tuple)
    requires inputs.normalOffset.Some? && !TupleInRange(inputs, sources, tuple) && NormalRecords(inputs, sources, out)
    ensures var after := Step(inputs, sources, out, tuple);
      after.normals == out.normals && |after.vertices| == |out.vertices| + 1
  {
    NormalResolves(inputs, sources, tuple);
    var ivs := RecordsOf(inputs, sources, out, tuple);
    forall i | 0 <= i < |ivs| ensures !CanShare(inputs, sources, tuple, ivs[i]) {
      assert DescribesNormal(inputs, sources, out, ivs[i]);
    }
  }

  lemma StepAddsNoMoreNormals(inputs: Inputs, sources: Sources, out: Output, tuple: Tuple)
    requires GoodInputs(inputs, sources) && GoodSources(sources) && TupleFits(inputs, sources, tuple)
    ensures var after := Step(inputs, sources, out, tuple);
      |after.normals| - |out.normals| <= |after.vertices| - |out.vertices|
  {
  }

  /** Normals stay one for each vertex exactly when no tuple names one out of range; otherwise there are too few. */
  lemma {:induction false} NormalsAlignedExactly(inputs: Inputs, sources: Sources, tuples: seq<Tuple>)
    requires GoodInputs(inputs, sources) && GoodSources(sources) && AllFit(inputs, sources, tuples)
    requires inputs.normalOffset.Some?
    ensures var out := Unified(inputs, sources, tuples);
      |out.normals| <= |out.vertices| && (|out.normals| == |out.vertices| <==> AllInRange(inputs, sources, tuples))
  {
    hide GoodSources, GoodInputs, Step, TupleFits, TupleInRange, NormalRecords;
    if tuples != [] {
      var n := |tuples| - 1;
      var before := Unified(inputs, sources, tuples[..n]);
      NormalsAlignedExactly(inputs, sources, tuples[..n]);
      StepAddsNoMoreNormals(inputs, sources, before, tuples[n]);
      if AllInRange(inputs, sources, tuples[..n]) && !TupleInRange(inputs, sources, tuples[n]) {
        UnifiedKeepsNormals(inputs, sources, tuples[..n]);
        StepWithoutNormal(inputs, sources, before, tuples[n]);
      }
      AllInRangeLast(inputs, sources, tuples);
      if AllInRange(inputs, sources, tuples) {
        UnifiedKeepsNormals(inputs, sources, tuples);
      }
    }
  }

  lemma AllInRangeLast(inputs: Inputs, sources: Sources, tuples: seq<Tuple>)
    requires GoodInputs(inputs, sources) && tuples != []
    ensures var n := |tuples| - 1;
      AllInRange(inputs, sources, tuples) <==>
      AllInRange(inputs, sources, tuples[..n]) && TupleInRange(inputs, sources, tuples[n])
  {
    hide TupleInRange;
  }
}
