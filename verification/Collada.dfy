/** Loading a COLLADA source: its values, and a map from each repeated value to its first occurrence
    (graphics/src/ColladaLoader.cc, LoadPositions, LoadNormals and LoadTexCoords). */
module ColladaSources {

  /** Whether the i-th group of numbers is read: its first number is below the declared count, its last is there. */
  predicate Present(k: nat, values: seq<real>, totCount: nat, width: nat) {
    k < totCount && k + width <= |values|
  }

  /** The groups of `width` numbers that start at a multiple of `stride`, from position k on. */
  function Groups(values: seq<real>, totCount: nat, stride: nat, width: nat, k: nat): seq<seq<real>>
    requires 0 < width <= stride
    decreases |values| - k
  {
    if Present(k, values, totCount, width) then
      [values[k..k + width]] + Groups(values, totCount, stride, width, k + stride)
    else []
  }

  /** Every repeated value, and no other, is mapped: to the first of its occurrences. */
  ghost predicate MapsDuplicates<T>(items: seq<T>, duplicates: map<nat, nat>) {
    && (forall i :: i in duplicates ==>
          i < |items| && duplicates[i] < i && duplicates[i] !in duplicates && items[duplicates[i]] == items[i])
    && (forall i, j :: 0 <= j < i < |items| && items[i] == items[j] ==> i in duplicates)
  }

  function Resolve(duplicates: map<nat, nat>, i: nat): nat {
    if i in duplicates then duplicates[i] else i
  }

  /** Resolved indices stand for values: they are the same exactly when the values are. */
  lemma ResolveIsCanonical<T>(items: seq<T>, duplicates: map<nat, nat>, i: nat, j: nat)
    requires MapsDuplicates(items, duplicates) && i < |items| && j < |items|
    ensures Resolve(duplicates, i) <= i && items[Resolve(duplicates, i)] == items[i]
    ensures Resolve(duplicates, i) == Resolve(duplicates, j) <==> items[i] == items[j]
  {
  }

  /** The values read so far, their duplicates, and the first occurrence of every value among them. */
  ghost predicate Tracks<T>(items: seq<T>, duplicates: map<nat, nat>, unique: map<T, nat>) {
    && MapsDuplicates(items, duplicates)
    && (forall v :: v in unique ==> unique[v] < |items| && unique[v] !in duplicates && items[unique[v]] == v)
    && (forall i :: 0 <= i < |items| ==> items[i] in unique)
  }

  lemma TracksNext<T>(items: seq<T>, duplicates: map<nat, nat>, unique: map<T, nat>, vec: T)
    requires Tracks(items, duplicates, unique)
    ensures vec in unique ==> Tracks(items + [vec], duplicates[|items| := unique[vec]], unique)
    ensures vec !in unique ==> Tracks(items + [vec], duplicates, unique[vec := |items|])
  {
  }

  lemma TracksDuplicates<T>(items: seq<T>, duplicates: map<nat, nat>, unique: map<T, nat>)
    requires Tracks(items, duplicates, unique)
    ensures MapsDuplicates(items, duplicates)
  {
  }

  lemma NothingRead<T>()
    ensures Tracks<T>([], map[], map[])
  {
  }

  lemma GroupsStep(values: seq<real>, totCount: nat, stride: nat, width: nat, k: nat)
    requires 0 < width <= stride
    ensures Groups(values, totCount, stride, width, k) ==
      if Present(k, values, totCount, width) then
        [values[k..k + width]] + Groups(values, totCount, stride, width, k + stride)
      else []
  {
  }

  /** Which groups are read, and what they are. */
  lemma {:induction false} GroupAt(values: seq<real>, totCount: nat, stride: nat, width: nat, k: nat, j: nat)
    requires 0 < width <= stride
    ensures 0 <= j * stride
    ensures j < |Groups(values, totCount, stride, width, k)| <==> Present(k + j * stride, values, totCount, width)
    ensures j < |Groups(values, totCount, stride, width, k)| ==>
      Groups(values, totCount, stride, width, k)[j] == values[k + j * stride..k + j * stride + width]
    decreases j
  {
    if j > 0 {
      assert j * stride == (j - 1) * stride + stride;
      GroupAt(values, totCount, stride, width, k + stride, j - 1);
    }
  }

  lemma ItemsAre<T>(values: seq<real>, totCount: nat, stride: nat, width: nat, convert: seq<real> -> T, items: seq<T>)
    requires 0 < width <= stride
    requires
      var groups := Groups(values, totCount, stride, width, 0);
      |items| == |groups| && forall i :: 0 <= i < |items| ==> items[i] == convert(groups[i])
    ensures AreItems(values, totCount, stride, width, convert, items)
  {
    hide Groups;
    forall i: nat
      ensures 0 <= i * stride
      ensures i < |items| <==> Present(i * stride, values, totCount, width)
      ensures i < |items| ==> items[i] == convert(values[i * stride..i * stride + width])
    {
      GroupAt(values, totCount, stride, width, 0, i);
    }
  }

  /** The values are those of the groups at the multiples of the stride, as far as they go. */
  ghost predicate AreItems<T>(values: seq<real>, totCount: nat, stride: nat, width: nat, convert: seq<real> -> T,
                              items: seq<T>)
    requires 0 < width <= stride
  {
    && (forall i: nat :: i < |items| <==> i * stride < totCount && i * stride + width <= |values|)
    && (forall i: nat :: i < |items| ==> 0 <= i * stride && items[i] == convert(values[i * stride..i * stride + width]))
  }

  /** The loop of the three loaders, which differ in how a group of numbers becomes a value. */
  method LoadSource<T(==)>(values: seq<real>, totCount: nat, stride: nat, width: nat, convert: seq<real> -> T)
    returns (items: seq<T>, duplicates: map<nat, nat>)
    requires 0 < width <= stride
    ensures AreItems(values, totCount, stride, width, convert, items)
    ensures MapsDuplicates(items, duplicates)
  {
    hide Groups, Tracks, MapsDuplicates, AreItems;
    items, duplicates := [], map[];
    NothingRead<T>();
    var unique: map<T, nat> := map[];
    var k := 0;
    ghost var read: seq<seq<real>> := [];
    while k < totCount && k + (width - 1) < |values|
      invariant read + Groups(values, totCount, stride, width, k) == Groups(values, totCount, stride, width, 0)
      invariant |items| == |read| && forall i :: 0 <= i < |items| ==> items[i] == convert(read[i])
      invariant Tracks(items, duplicates, unique)
      decreases |values| - k
    {
      var vec := convert(values[k..k + width]);
      TracksNext(items, duplicates, unique, vec);
      items := items + [vec];
      if vec in unique {
        duplicates := duplicates[|items| - 1 := unique[vec]];
      } else {
        unique := unique[vec := |items| - 1];
      }
      GroupsStep(values, totCount, stride, width, k);
      read := read + [values[k..k + width]];
      k := k + stride;
    }
    GroupsStep(values, totCount, stride, width, k);
    TracksDuplicates(items, duplicates, unique);
    ItemsAre(values, totCount, stride, width, convert, items);
  }
}
