/** Finding the vertices at a point through an ordered map keyed by X, and the vertex normals that are summed with it
    (graphics/src/SubMesh.cc, Neighbors and RecalculateNormals). */
module Neighborhoods {
  import opened Vectors
  import opened SubMeshes

  /** An ordered map from X coordinates to vertex indices. */
  type Groups = seq<(real, seq<nat>)>

  function Filter<T>(p: T -> bool, s: seq<T>): seq<T> {
    if s == [] then [] else Filter(p, s[..|s|-1]) + (if p(s[|s|-1]) then [s[|s|-1]] else [])
  }

  function Flat(groups: Groups): seq<nat> {
    if groups == [] then [] else Flat(groups[..|groups|-1]) + groups[|groups|-1].1
  }

  /** Appends an index to the group of its key, making the group if there is none. */
  function Added(groups: Groups, key: real, index: nat): Groups {
    if groups == [] || key < groups[0].0 then [(key, [index])] + groups
    else if key == groups[0].0 then [(key, groups[0].1 + [index])] + groups[1..]
    else [groups[0]] + Added(groups[1..], key, index)
  }

  ghost predicate Sorted(groups: Groups) {
    forall j, k :: 0 <= j < k < |groups| ==> groups[j].0 < groups[k].0
  }

  ghost predicate Keyed(vertices: seq<Vec>, groups: Groups) {
    forall j, k :: 0 <= j < |groups| && 0 <= k < |groups[j].1| ==>
      groups[j].1[k] < |vertices| && vertices[groups[j].1[k]].x == groups[j].0
  }

  /** math::equal. */
  predicate Equal(eps: real, a: real, b: real) {
    Abs(a - b) <= eps
  }

  /** The entries that a linear scan of the index list finds at a point. */
  ghost predicate Matches(eps: real, same: (Vec, Vec) -> bool, vertices: seq<Vec>, point: Vec, index: nat) {
    index < |vertices| && Equal(eps, vertices[index].x, point.x) && same(vertices[index], point)
  }

  ghost function Matching(eps: real, same: (Vec, Vec) -> bool, vertices: seq<Vec>, point: Vec): nat -> bool {
    (index: nat) => Matches(eps, same, vertices, point, index)
  }

  // -------- filters and multisets --------

  lemma {:induction false} FilterCount<T>(p: T -> bool, s: seq<T>, x: T)
    ensures multiset(Filter(p, s))[x] == if p(x) then multiset(s)[x] else 0
  {
    if s != [] {
      FilterCount(p, s[..|s|-1], x);
      assert s == s[..|s|-1] + [s[|s|-1]];
    }
  }

  lemma FilterPermutation<T(!new)>(p: T -> bool, s: seq<T>, t: seq<T>)
    requires multiset(s) == multiset(t)
    ensures multiset(Filter(p, s)) == multiset(Filter(p, t))
  {
    var a, b := multiset(Filter(p, s)), multiset(Filter(p, t));
    forall x: T ensures a[x] == b[x] {
      FilterCount(p, s, x);
      FilterCount(p, t, x);
    }
    assert a == b;
  }

  lemma {:induction false} FilterAppend<T>(p: T -> bool, s: seq<T>, t: seq<T>)
    ensures Filter(p, s + t) == Filter(p, s) + Filter(p, t)
  {
    if t == [] {
      assert s + t == s;
    } else {
      assert (s + t)[..|s + t|-1] == s + t[..|t|-1];
      FilterAppend(p, s, t[..|t|-1]);
    }
  }

  lemma {:induction false} FilterNone<T>(p: T -> bool, s: seq<T>)
    requires forall k :: 0 <= k < |s| ==> !p(s[k])
    ensures Filter(p, s) == []
  {
    if s != [] {
      FilterNone(p, s[..|s|-1]);
    }
  }

  lemma {:induction false} FilterSame<T>(p: T -> bool, q: T -> bool, s: seq<T>)
    requires forall k :: 0 <= k < |s| ==> p(s[k]) == q(s[k])
    ensures Filter(p, s) == Filter(q, s)
  {
    if s != [] {
      FilterSame(p, q, s[..|s|-1]);
    }
  }

  lemma {:induction false} FlatAppend(a: Groups, b: Groups)
    ensures Flat(a + b) == Flat(a) + Flat(b)
  {
    if b == [] {
      assert a + b == a;
    } else {
      assert (a + b)[..|a + b|-1] == a + b[..|b|-1];
      FlatAppend(a, b[..|b|-1]);
    }
  }

  // -------- building the groups --------

  ghost predicate HasKey(groups: Groups, x: real) {
    exists j :: 0 <= j < |groups| && groups[j].0 == x
  }

  lemma HasKeyCons(g: (real, seq<nat>), rest: Groups, x: real)
    ensures HasKey([g] + rest, x) <==> g.0 == x || HasKey(rest, x)
  {
    var groups := [g] + rest;
    if g.0 == x {
      assert groups[0].0 == x;
    }
    if j :| 0 <= j < |rest| && rest[j].0 == x {
      assert groups[j+1].0 == x;
    }
    if j :| 0 <= j < |groups| && groups[j].0 == x {
      assert j == 0 || rest[j-1].0 == x;
    }
  }

  lemma SortedTail(g: (real, seq<nat>), rest: Groups)
    requires Sorted([g] + rest)
    ensures Sorted(rest) && forall x :: HasKey(rest, x) ==> g.0 < x
  {
    var groups := [g] + rest;
    forall j, k | 0 <= j < k < |rest| ensures rest[j].0 < rest[k].0 {
      assert groups[j+1].0 < groups[k+1].0;
    }
    forall x | HasKey(rest, x) ensures g.0 < x {
      var j :| 0 <= j < |rest| && rest[j].0 == x;
      assert groups[0].0 < groups[j+1].0;
    }
  }

  lemma SortedCons(g: (real, seq<nat>), rest: Groups)
    requires Sorted(rest) && forall x :: HasKey(rest, x) ==> g.0 < x
    ensures Sorted([g] + rest)
  {
    forall k | 0 <= k < |rest| ensures g.0 < rest[k].0 {
      assert HasKey(rest, rest[k].0);
    }
    hide HasKey;
  }

  lemma {:induction false} AddedSorted(groups: Groups, key: real, index: nat)
    requires Sorted(groups)
    ensures Sorted(Added(groups, key, index))
    ensures forall x :: HasKey(Added(groups, key, index), x) <==> HasKey(groups, x) || x == key
  {
    hide HasKey, Sorted;
    if groups == [] {
      assert [(key, [index])] + groups == [(key, [index])];
      HasNoKeys();
      SortedCons((key, [index]), []);
      forall x { HasKeyCons((key, [index]), [], x); }
    } else {
      var first, rest := groups[0], groups[1..];
      assert groups == [first] + rest;
      SortedTail(first, rest);
      forall x { HasKeyCons(first, rest, x); }
      if key < first.0 {
        SortedCons((key, [index]), groups);
        forall x { HasKeyCons((key, [index]), groups, x); }
      } else if key == first.0 {
        SortedCons((key, first.1 + [index]), rest);
        forall x { HasKeyCons((key, first.1 + [index]), rest, x); }
      } else {
        AddedSorted(rest, key, index);
        SortedCons(first, Added(rest, key, index));
        forall x { HasKeyCons(first, Added(rest, key, index), x); }
      }
    }
  }

  lemma HasNoKeys()
    ensures Sorted([]) && forall x :: !HasKey([], x)
  {
  }

  lemma {:induction false} AddedKeyed(vertices: seq<Vec>, groups: Groups, key: real, index: nat)
    requires Keyed(vertices, groups) && index < |vertices| && vertices[index].x == key
    ensures Keyed(vertices, Added(groups, key, index))
  {
    if groups != [] && groups[0].0 < key {
      AddedKeyed(vertices, groups[1..], key, index);
    }
  }

  lemma {:induction false} AddedFlat(groups: Groups, key: real, index: nat)
    ensures multiset(Flat(Added(groups, key, index))) == multiset(Flat(groups)) + multiset{index}
  {
    if groups == [] || key < groups[0].0 {
      FlatAppend([(key, [index])], groups);
      FlatOne((key, [index]));
    } else {
      var first, rest := groups[0], groups[1..];
      assert groups == [first] + rest;
      FlatAppend([first], rest);
      FlatOne(first);
      if key == first.0 {
        FlatAppend([(key, first.1 + [index])], rest);
        FlatOne((key, first.1 + [index]));
      } else {
        AddedFlat(rest, key, index);
        FlatAppend([first], Added(rest, key, index));
      }
    }
  }

  lemma FlatOne(g: (real, seq<nat>))
    ensures Flat([g]) == g.1
  {
    assert [g][..0] == [];
  }

  /** The groups are made by adding the entries of the index list one by one. */
  method BuildGroups(vertices: seq<Vec>, indices: seq<nat>) returns (groups: Groups)
    requires InRange(indices, |vertices|)
    ensures Sorted(groups) && Keyed(vertices, groups) && multiset(Flat(groups)) == multiset(indices)
    ensures forall k :: 0 <= k < |indices| ==> HasKey(groups, vertices[indices[k]].x)
  {
    hide Sorted, Keyed, Flat, Added, HasKey;
    groups := [];
    NoGroups(vertices);
    for i := 0 to |indices|
      invariant Sorted(groups) && Keyed(vertices, groups) && multiset(Flat(groups)) == multiset(indices[..i])
      invariant forall k :: 0 <= k < i ==> HasKey(groups, vertices[indices[k]].x)
    {
      var index := indices[i];
      AddedSorted(groups, vertices[index].x, index);
      AddedKeyed(vertices, groups, vertices[index].x, index);
      AddedFlat(groups, vertices[index].x, index);
      groups := Added(groups, vertices[index].x, index);
      assert indices[..i+1] == indices[..i] + [index];
    }
    assert indices[..|indices|] == indices;
  }

  lemma NoGroups(vertices: seq<Vec>)
    ensures Sorted([]) && Keyed(vertices, []) && Flat([]) == []
  {
  }

  // -------- visiting --------

  /** The groups from lo to hi are those whose keys are within epsilon of x. */
  ghost predicate IsRange(eps: real, groups: Groups, x: real, lo: nat, hi: nat) {
    && lo <= hi <= |groups|
    && forall k :: 0 <= k < |groups| ==> (lo <= k < hi <==> Equal(eps, groups[k].0, x))
  }

  ghost predicate SameAs(same: (Vec, Vec) -> bool, vertices: seq<Vec>, point: Vec, index: nat) {
    index < |vertices| && same(vertices[index], point)
  }

  ghost function Coincident(same: (Vec, Vec) -> bool, vertices: seq<Vec>, point: Vec): nat -> bool {
    (index: nat) => SameAs(same, vertices, point, index)
  }

  lemma {:induction false} FlatKeys(vertices: seq<Vec>, groups: Groups, k: nat)
    requires Keyed(vertices, groups) && k < |Flat(groups)|
    ensures Flat(groups)[k] < |vertices| && HasKey(groups, vertices[Flat(groups)[k]].x)
  {
    var n := |groups| - 1;
    if k < |Flat(groups[..n])| {
      FlatKeys(vertices, groups[..n], k);
      var j :| 0 <= j < n && groups[..n][j].0 == vertices[Flat(groups)[k]].x;
      assert groups[j].0 == vertices[Flat(groups)[k]].x;
    } else {
      assert groups[n].1[k - |Flat(groups[..n])|] == Flat(groups)[k];
    }
  }

  lemma PartsOfRange(eps: real, vertices: seq<Vec>, groups: Groups, x: real, lo: nat, hi: nat)
    requires Keyed(vertices, groups) && IsRange(eps, groups, x, lo, hi)
    ensures lo <= hi <= |groups|
    ensures Keyed(vertices, groups[..lo]) && Keyed(vertices, groups[lo..hi]) && Keyed(vertices, groups[hi..])
    ensures forall k :: 0 <= k < lo ==> !Equal(eps, groups[..lo][k].0, x)
    ensures forall k :: 0 <= k < hi - lo ==> Equal(eps, groups[lo..hi][k].0, x)
    ensures forall k :: 0 <= k < |groups| - hi ==> !Equal(eps, groups[hi..][k].0, x)
  {
    hide Equal;
  }

  /** The matches are exactly the entries of the groups in the range that coincide with the point. */
  lemma MatchesAreInRange(eps: real, same: (Vec, Vec) -> bool, vertices: seq<Vec>, groups: Groups, point: Vec,
                          lo: nat, hi: nat)
    requires Keyed(vertices, groups) && IsRange(eps, groups, point.x, lo, hi)
    ensures Filter(Matching(eps, same, vertices, point), Flat(groups))
         == Filter(Coincident(same, vertices, point), Flat(groups[lo..hi]))
  {
    hide Filter, Flat, Matching, Coincident, Equal, Keyed, IsRange;
    PartsOfRange(eps, vertices, groups, point.x, lo, hi);
    var a, b, c := groups[..lo], groups[lo..hi], groups[hi..];
    OutsideMatchesNothing(eps, same, vertices, a, point);
    OutsideMatchesNothing(eps, same, vertices, c, point);
    InsideMatches(eps, same, vertices, b, point);
    FilterInParts(Matching(eps, same, vertices, point), a, b, c);
    assert groups == a + (b + c);
  }

  lemma FilterInParts(p: nat -> bool, a: Groups, b: Groups, c: Groups)
    ensures Filter(p, Flat(a + (b + c))) == Filter(p, Flat(a)) + (Filter(p, Flat(b)) + Filter(p, Flat(c)))
  {
    hide Filter, Flat;
    FlatAppend(a, b + c);
    FlatAppend(b, c);
    FilterAppend(p, Flat(a), Flat(b) + Flat(c));
    FilterAppend(p, Flat(b), Flat(c));
  }

  lemma OutsideMatchesNothing(eps: real, same: (Vec, Vec) -> bool, vertices: seq<Vec>, groups: Groups, point: Vec)
    requires Keyed(vertices, groups) && forall k :: 0 <= k < |groups| ==> !Equal(eps, groups[k].0, point.x)
    ensures Filter(Matching(eps, same, vertices, point), Flat(groups)) == []
  {
    forall k | 0 <= k < |Flat(groups)| ensures !Matching(eps, same, vertices, point)(Flat(groups)[k]) {
      FlatKeys(vertices, groups, k);
    }
    FilterNone(Matching(eps, same, vertices, point), Flat(groups));
  }

  lemma InsideMatches(eps: real, same: (Vec, Vec) -> bool, vertices: seq<Vec>, groups: Groups, point: Vec)
    requires Keyed(vertices, groups) && forall k :: 0 <= k < |groups| ==> Equal(eps, groups[k].0, point.x)
    ensures Filter(Matching(eps, same, vertices, point), Flat(groups))
         == Filter(Coincident(same, vertices, point), Flat(groups))
  {
    var p, q := Matching(eps, same, vertices, point), Coincident(same, vertices, point);
    forall k | 0 <= k < |Flat(groups)| ensures p(Flat(groups)[k]) == q(Flat(groups)[k]) {
      FlatKeys(vertices, groups, k);
    }
    FilterSame(p, q, Flat(groups));
  }

  method Find(groups: Groups, x: real) returns (it: nat)
    requires Sorted(groups)
    ensures it <= |groups| && (it < |groups| ==> groups[it].0 == x)
    ensures HasKey(groups, x) ==> it < |groups|
  {
    for k := 0 to |groups|
      invariant forall j :: 0 <= j < k ==> groups[j].0 != x
    {
      if groups[k].0 == x {
        return k;
      }
    }
    return |groups|;
  }

  ghost predicate NoneNear(eps: real, groups: Groups, x: real) {
    forall k :: 0 <= k < |groups| ==> !Equal(eps, groups[k].0, x)
  }

  /**
    * Whether all groups within epsilon are visited. The search goes backwards from the group of the key, or from the end
    * of the map when the key is missing: then groups are seen only if the last one is among them.
    */
  ghost predicate Reached(eps: real, groups: Groups, x: real) {
    HasKey(groups, x) || NoneNear(eps, groups, x) || Equal(eps, groups[|groups| - 1].0, x)
  }

  /** The indices that are visited at a point, in order: all that match in the map, or none. */
  method Visit(vertices: seq<Vec>, groups: Groups, eps: real, same: (Vec, Vec) -> bool, point: Vec)
    returns (visited: seq<nat>)
    requires Sorted(groups) && Keyed(vertices, groups) && 0.0 <= eps
    ensures visited ==
            if Reached(eps, groups, point.x) then Filter(Matching(eps, same, vertices, point), Flat(groups)) else []
  {
    hide Keyed, Filter, Flat, Coincident, Matching, HasKey;
    var it := FirstNear(groups, eps, point.x);
    ghost var lo := it;
    visited := [];
    NothingVisited(vertices, same, point);
    assert groups[lo..lo] == [];
    while it < |groups| && Equal(eps, groups[it].0, point.x)
      invariant lo <= it <= |groups|
      invariant forall k :: lo <= k < it ==> Equal(eps, groups[k].0, point.x)
      invariant visited == Filter(Coincident(same, vertices, point), Flat(groups[lo..it]))
    {
      var more := VisitGroup(vertices, groups, it, same, point);
      visited := visited + more;
      GroupVisited(vertices, groups, lo, it, same, point);
      it := it + 1;
    }
    if Reached(eps, groups, point.x) {
      assert IsRange(eps, groups, point.x, lo, it);
      MatchesAreInRange(eps, same, vertices, groups, point, lo, it);
    }
  }

  /** The search: forwards to the key, and then backwards as long as the keys are within epsilon. */
  method FirstNear(groups: Groups, eps: real, x: real) returns (it: nat)
    requires Sorted(groups) && 0.0 <= eps
    ensures it <= |groups|
    ensures !Reached(eps, groups, x) ==> it == |groups|
    ensures Reached(eps, groups, x) ==>
      && (forall k :: 0 <= k < it ==> !Equal(eps, groups[k].0, x))
      && (it < |groups| ==> Equal(eps, groups[it].0, x))
  {
    it := Find(groups, x);
    ghost var found := it;
    while it != 0
      invariant 0 <= it <= found <= |groups| && (forall k :: it <= k < found ==> Equal(eps, groups[k].0, x))
    {
      var prev := it - 1;
      if !Equal(eps, groups[prev].0, x) {
        break;
      }
      it := prev;
    }
  }

  lemma NothingVisited(vertices: seq<Vec>, same: (Vec, Vec) -> bool, point: Vec)
    ensures Filter(Coincident(same, vertices, point), Flat([])) == []
  {
  }

  lemma GroupVisited(vertices: seq<Vec>, groups: Groups, lo: nat, it: nat, same: (Vec, Vec) -> bool, point: Vec)
    requires lo <= it < |groups|
    ensures var p := Coincident(same, vertices, point);
      Filter(p, Flat(groups[lo..it+1])) == Filter(p, Flat(groups[lo..it])) + Filter(p, groups[it].1)
  {
    assert groups[lo..it+1] == groups[lo..it] + [groups[it]];
    FlatAppend(groups[lo..it], [groups[it]]);
    FlatOne(groups[it]);
    FilterAppend(Coincident(same, vertices, point), Flat(groups[lo..it]), groups[it].1);
  }

  method VisitGroup(vertices: seq<Vec>, groups: Groups, it: nat, same: (Vec, Vec) -> bool, point: Vec)
    returns (visited: seq<nat>)
    requires it < |groups| && Keyed(vertices, groups)
    ensures visited == Filter(Coincident(same, vertices, point), groups[it].1)
  {
    var list := groups[it].1;
    visited := [];
    for k := 0 to |list|
      invariant visited == Filter(Coincident(same, vertices, point), list[..k])
    {
      var index := list[k];
      assert list[..k+1][..k] == list[..k];
      if same(vertices[index], point) {
        visited := visited + [index];
      }
    }
    assert list[..|list|] == list;
  }

  // -------- vertex normals --------

  /** Adds n to the normal of each index listed. */
  function AddAll(normals: seq<Vec>, list: seq<nat>, n: Vec): (r: seq<Vec>)
    ensures |r| == |normals|
  {
    if list == [] then normals
    else
      var before, index := AddAll(normals, list[..|list|-1], n), list[|list|-1];
      if index < |normals| then before[index := before[index].Plus(n)] else before
  }

  function Repeated(v: Vec, n: Vec, count: nat): Vec {
    if count == 0 then v else Repeated(v, n, count - 1).Plus(n)
  }

  lemma {:induction false} AddAllAt(normals: seq<Vec>, list: seq<nat>, n: Vec, index: nat)
    requires index < |normals|
    ensures AddAll(normals, list, n)[index] == Repeated(normals[index], n, multiset(list)[index])
  {
    if list != [] {
      AddAllAt(normals, list[..|list|-1], n, index);
      assert list == list[..|list|-1] + [list[|list|-1]];
    }
  }

  /** The order of the list does not matter. */
  lemma AddAllPermutation(normals: seq<Vec>, a: seq<nat>, b: seq<nat>, n: Vec)
    requires multiset(a) == multiset(b)
    ensures AddAll(normals, a, n) == AddAll(normals, b, n)
  {
    forall index | 0 <= index < |normals| ensures AddAll(normals, a, n)[index] == AddAll(normals, b, n)[index] {
      AddAllAt(normals, a, n, index);
      AddAllAt(normals, b, n, index);
    }
  }

  /** How points are compared and faces get their normals. */
  datatype Geometry = Geometry(eps: real, same: (Vec, Vec) -> bool, normalOf: (Vec, Vec, Vec) -> Vec, normalize: Vec -> Vec)

  /** A linear scan: adds n to the normal of every entry of the index list that matches the point. */
  ghost function Scanned(g: Geometry, vertices: seq<Vec>, indices: seq<nat>, normals: seq<Vec>, point: Vec, n: Vec): seq<Vec>
  {
    AddAll(normals, Filter(Matching(g.eps, g.same, vertices, point), indices), n)
  }

  ghost function FaceScanned(g: Geometry, vertices: seq<Vec>, indices: seq<nat>, normals: seq<Vec>,
                             a: Vec, b: Vec, c: Vec): seq<Vec>
  {
    var n := g.normalOf(a, b, c);
    Scanned(g, vertices, indices, Scanned(g, vertices, indices, Scanned(g, vertices, indices, normals, a, n), b, n), c, n)
  }

  /** The normals summed by a linear scan of the whole index list for each corner of the first k indices. */
  ghost function ScanSums(g: Geometry, vertices: seq<Vec>, indices: seq<nat>, k: nat): (r: seq<Vec>)
    requires k <= |indices| && k % 3 == 0 && InRange(indices, |vertices|)
    ensures |r| == |vertices|
  {
    if k == 0 then seq(|vertices|, _ => ZERO)
    else FaceScanned(g, vertices, indices, ScanSums(g, vertices, indices, k - 3),
                     vertices[indices[k-3]], vertices[indices[k-2]], vertices[indices[k-1]])
  }

  // -------- the sums in closed form --------

  lemma {:induction false} RepeatedIsTimes(v: Vec, n: Vec, count: nat)
    ensures Repeated(v, n, count) == v.Plus(n.Times(count as real))
  {
    if count != 0 {
      RepeatedIsTimes(v, n, count - 1);
      OneMore(v.x, n.x, (count - 1) as real);
      OneMore(v.y, n.y, (count - 1) as real);
      OneMore(v.z, n.z, (count - 1) as real);
    }
  }

  lemma OneMore(v: real, n: real, count: real)
    ensures v + n * count + n == v + n * (count + 1.0)
  {
  }

  /** The normal of the face that corner t belongs to. */
  function NormalAt(g: Geometry, vertices: seq<Vec>, indices: seq<nat>, t: nat): Vec
    requires IsTriangleList(vertices, indices) && t < |indices|
  {
    var first := t - t % 3;
    g.normalOf(vertices[indices[first]], vertices[indices[first+1]], vertices[indices[first+2]])
  }

  /** How often a corner at point p counts for vertex j: once for each entry j of the index list if vertex j is there. */
  function Share(g: Geometry, vertices: seq<Vec>, indices: seq<nat>, p: Vec, j: nat): nat
    requires j < |vertices|
  {
    if Abs(vertices[j].x - p.x) <= g.eps && g.same(vertices[j], p) then multiset(indices)[j] else 0
  }

  /** The shares of vertex j in the normals of the faces of the first k corners. */
  ghost function Shares(g: Geometry, vertices: seq<Vec>, indices: seq<nat>, j: nat, k: nat): Vec
    requires IsTriangleList(vertices, indices) && j < |vertices| && k <= |indices|
  {
    if k == 0 then ZERO
    else
      var share := Share(g, vertices, indices, vertices[indices[k-1]], j);
      Shares(g, vertices, indices, j, k - 1).Plus(NormalAt(g, vertices, indices, k - 1).Times(share as real))
  }

  lemma ScannedAt(g: Geometry, vertices: seq<Vec>, indices: seq<nat>, normals: seq<Vec>, p: Vec, n: Vec, j: nat)
    requires j < |vertices| == |normals|
    ensures |Scanned(g, vertices, indices, normals, p, n)| == |vertices|
    ensures Scanned(g, vertices, indices, normals, p, n)[j]
         == normals[j].Plus(n.Times(Share(g, vertices, indices, p, j) as real))
  {
    var found: seq<nat> := Filter(Matching(g.eps, g.same, vertices, p), indices);
    FilterCount(Matching(g.eps, g.same, vertices, p), indices, j);
    AddAllAt(normals, found, n, j);
    RepeatedIsTimes(normals[j], n, multiset(found)[j]);
    hide Filter, AddAll, Repeated;
  }

  /** The sum at a vertex before it is normalized: each corner of each face adds the normal of the face, as often as it
      counts for the vertex. */
  lemma {:induction false} SumsAreShares(g: Geometry, vertices: seq<Vec>, indices: seq<nat>, k: nat, j: nat)
    requires IsTriangleList(vertices, indices) && k <= |indices| && k % 3 == 0 && j < |vertices|
    ensures ScanSums(g, vertices, indices, k)[j] == Shares(g, vertices, indices, j, k)
  {
    hide Scanned, Share;
    if k != 0 {
      SumsAreShares(g, vertices, indices, k - 3, j);
      var sums := ScanSums(g, vertices, indices, k - 3);
      var a, b, c := vertices[indices[k-3]], vertices[indices[k-2]], vertices[indices[k-1]];
      var n := g.normalOf(a, b, c);
      var sumsA := Scanned(g, vertices, indices, sums, a, n);
      ScannedAt(g, vertices, indices, sums, a, n, j);
      ScannedAt(g, vertices, indices, sumsA, b, n, j);
      ScannedAt(g, vertices, indices, Scanned(g, vertices, indices, sumsA, b, n), c, n, j);
      FaceShares(g, vertices, indices, k, j);
    }
  }

  lemma FaceShares(g: Geometry, vertices: seq<Vec>, indices: seq<nat>, k: nat, j: nat)
    requires IsTriangleList(vertices, indices) && 3 <= k <= |indices| && k % 3 == 0 && j < |vertices|
    ensures
      var a, b, c := vertices[indices[k-3]], vertices[indices[k-2]], vertices[indices[k-1]];
      var n := g.normalOf(a, b, c);
      Shares(g, vertices, indices, j, k) ==
        Shares(g, vertices, indices, j, k - 3)
          .Plus(n.Times(Share(g, vertices, indices, a, j) as real))
          .Plus(n.Times(Share(g, vertices, indices, b, j) as real))
          .Plus(n.Times(Share(g, vertices, indices, c, j) as real))
  {
    hide Share, Vec.Plus, Vec.Times;
    assert (k - 1) % 3 == 2 && (k - 2) % 3 == 1 && (k - 3) % 3 == 0;
    var n := NormalAt(g, vertices, indices, k - 3);
    assert NormalAt(g, vertices, indices, k - 1) == n && NormalAt(g, vertices, indices, k - 2) == n;
    hide NormalAt;
    var before := Shares(g, vertices, indices, j, k - 3);
    var first := before.Plus(n.Times(Share(g, vertices, indices, vertices[indices[k-3]], j) as real));
    assert Shares(g, vertices, indices, j, k - 2) == first;
    assert Shares(g, vertices, indices, j, k - 1)
        == first.Plus(n.Times(Share(g, vertices, indices, vertices[indices[k-2]], j) as real));
  }

  ghost function AllNormalized(g: Geometry, sums: seq<Vec>): (r: seq<Vec>)
    ensures |r| == |sums| && forall k :: 0 <= k < |r| ==> r[k] == g.normalize(sums[k])
  {
    seq(|sums|, k requires 0 <= k < |sums| => g.normalize(sums[k]))
  }

  method AddToVisited(normals0: seq<Vec>, visited: seq<nat>, n: Vec) returns (normals: seq<Vec>)
    requires forall index :: index in visited ==> index < |normals0|
    ensures normals == AddAll(normals0, visited, n)
  {
    normals := normals0;
    for k := 0 to |visited|
      invariant normals == AddAll(normals0, visited[..k], n)
    {
      assert visited[..k+1][..k] == visited[..k];
      assert visited[k] in visited;
      normals := normals[visited[k] := normals[visited[k]].Plus(n)];
    }
    assert visited[..|visited|] == visited;
  }

  method AccumulateCorner(g: Geometry, vertices: seq<Vec>, indices: seq<nat>, groups: Groups, normals0: seq<Vec>,
                          point: Vec, n: Vec)
    returns (normals: seq<Vec>)
    requires Sorted(groups) && Keyed(vertices, groups) && multiset(Flat(groups)) == multiset(indices) && 0.0 <= g.eps
    requires HasKey(groups, point.x) && |normals0| == |vertices|
    ensures normals == Scanned(g, vertices, indices, normals0, point, n) && |normals| == |vertices|
  {
    hide Sorted, Keyed, HasKey, Flat, Filter, AddAll, Matching, NoneNear, Equal;
    var visited := Visit(vertices, groups, g.eps, g.same, point);
    MatchingInRange(g, vertices, point, Flat(groups));
    normals := AddToVisited(normals0, visited, n);
    FilterPermutation(Matching(g.eps, g.same, vertices, point), Flat(groups), indices);
    AddAllPermutation(normals0, visited, Filter(Matching(g.eps, g.same, vertices, point), indices), n);
  }

  lemma {:induction false} MatchingInRange(g: Geometry, vertices: seq<Vec>, point: Vec, s: seq<nat>)
    ensures forall index :: index in Filter<nat>(Matching(g.eps, g.same, vertices, point), s) ==> index < |vertices|
  {
    if s != [] {
      MatchingInRange(g, vertices, point, s[..|s|-1]);
    }
  }

  ghost predicate AreShares(g: Geometry, vertices: seq<Vec>, indices: seq<nat>, normals: seq<Vec>)
    requires IsTriangleList(vertices, indices)
  {
    && |normals| == |vertices|
    && forall j :: 0 <= j < |vertices| ==> normals[j] == g.normalize(Shares(g, vertices, indices, j, |indices|))
  }

  lemma NormalizedShares(g: Geometry, vertices: seq<Vec>, indices: seq<nat>)
    requires IsTriangleList(vertices, indices)
    ensures AreShares(g, vertices, indices, AllNormalized(g, ScanSums(g, vertices, indices, |indices|)))
  {
    hide ScanSums, Shares;
    var sums := ScanSums(g, vertices, indices, |indices|);
    forall j | 0 <= j < |vertices| ensures sums[j] == Shares(g, vertices, indices, j, |indices|) {
      SumsAreShares(g, vertices, indices, |indices|, j);
    }
  }

  /** The normals of a submesh become the normalized sums that linear scans would give: at each vertex the normals of
      the faces that it has a share in. */
  method RecalculateNormals(sub: SubMesh, g: Geometry)
    requires 0.0 <= g.eps
    modifies sub`normals
    ensures sub.AsShape().Measurable() ==> AreShares(g, sub.vertices, sub.indices, sub.normals)
    ensures !sub.AsShape().Measurable() ==> sub.normals == old(sub.normals)
  {
    if sub.primitiveType != Triangles || |sub.indices| % 3 != 0 {
      return;
    }
    var valid := sub.HasValidIndices();
    if !valid {
      return;
    }
    var vertices, indices := sub.vertices, sub.indices;
    var sums := SumNormals(vertices, indices, g);
    sub.normals := sums;
    NormalizeAll(sub, g);
    NormalizedShares(g, vertices, indices);
  }

  method NormalizeAll(sub: SubMesh, g: Geometry)
    modifies sub`normals
    ensures sub.normals == AllNormalized(g, old(sub.normals))
  {
    ghost var sums := sub.normals;
    for k := 0 to |sub.normals|
      invariant |sub.normals| == |sums|
      invariant forall j :: 0 <= j < |sums| ==> sub.normals[j] == if j < k then g.normalize(sums[j]) else sums[j]
    {
      sub.normals := sub.normals[k := g.normalize(sub.normals[k])];
    }
  }

  method SumNormals(vertices: seq<Vec>, indices: seq<nat>, g: Geometry) returns (normals: seq<Vec>)
    requires IsTriangleList(vertices, indices) && 0.0 <= g.eps
    ensures normals == ScanSums(g, vertices, indices, |indices|) && |normals| == |vertices|
  {
    hide Sorted, Keyed, HasKey, Flat, Scanned;
    normals := seq(|vertices|, _ => ZERO);
    var groups := BuildGroups(vertices, indices);
    var k := 0;
    while k < |indices|
      invariant k <= |indices| && k % 3 == 0 && |normals| == |vertices|
      invariant normals == ScanSums(g, vertices, indices, k)
    {
      var a, b, c := vertices[indices[k]], vertices[indices[k+1]], vertices[indices[k+2]];
      var n := g.normalOf(a, b, c);
      normals := AccumulateCorner(g, vertices, indices, groups, normals, a, n);
      normals := AccumulateCorner(g, vertices, indices, groups, normals, b, n);
      normals := AccumulateCorner(g, vertices, indices, groups, normals, c, n);
      k := k + 3;
    }
  }
}
