/** Directed edges of index buffers and polygons, taken as formal chains: an edge followed by its reverse
    cancels. A triangle list is closed when every directed edge occurs as often as its reverse. */
module Chains {
  import opened Sequences

  datatype Edge<T> = Edge(from: T, to: T)

  function Flip<T>(e: Edge<T>): Edge<T> {
    Edge(e.to, e.from)
  }

  function Flipped<T>(es: seq<Edge<T>>): (r: seq<Edge<T>>)
    ensures |r| == |es|
    ensures forall k :: 0 <= k < |es| ==> r[k] == Flip(es[k])
  {
    seq(|es|, k requires 0 <= k < |es| => Flip(es[k]))
  }

  /** The three directed edges of a triangle. */
  function Triangle<T>(a: T, b: T, c: T): seq<Edge<T>> {
    [Edge(a, b), Edge(b, c), Edge(c, a)]
  }

  /** The directed edges of a triangle list, three corners a triangle. */
  ghost function TriangleEdges<T>(corners: seq<T>): (es: seq<Edge<T>>)
    requires |corners| % 3 == 0
  {
    if corners == [] then []
    else
      var n := |corners| - 3;
      TriangleEdges(corners[..n]) + Triangle(corners[n], corners[n+1], corners[n+2])
  }

  /** How much more often e occurs than its reverse. */
  ghost function Net<T>(es: seq<Edge<T>>, e: Edge<T>): int {
    var forward: int, backward: int := multiset(es)[e], multiset(es)[Flip(e)];
    forward - backward
  }

  ghost predicate SameChain<T(!new)>(a: seq<Edge<T>>, b: seq<Edge<T>>) {
    forall e :: Net(a, e) == Net(b, e)
  }

  /** Every directed edge occurs exactly as often as its reverse. */
  ghost predicate Closed<T>(es: seq<Edge<T>>) {
    multiset(es) == multiset(Flipped(es))
  }

  ghost predicate Antisymmetric<T(!new)>(f: Edge<T> -> real) {
    forall e :: f(Flip(e)) == -f(e)
  }

  ghost function EdgeSum<T>(f: Edge<T> -> real, es: seq<Edge<T>>): real {
    if es == [] then 0.0 else f(es[0]) + EdgeSum(f, es[1..])
  }

  lemma {:induction false} TriangleEdgesAppend<T>(s: seq<T>, t: seq<T>)
    requires |s| % 3 == 0 && |t| % 3 == 0
    ensures TriangleEdges(s + t) == TriangleEdges(s) + TriangleEdges(t)
    decreases |t|
  {
    if t == [] {
      assert s + t == s;
    } else {
      assert (s + t)[..|s + t|-3] == s + t[..|t|-3];
      TriangleEdgesAppend(s, t[..|t|-3]);
    }
  }

  /** The chain of the single edge from x to y. */
  ghost function Arc<T>(x: T, y: T, e: Edge<T>): int {
    (if e == Edge(x, y) then 1 else 0) - (if e == Edge(y, x) then 1 else 0)
  }

  lemma ArcFlip<T>(x: T, y: T, e: Edge<T>)
    ensures Arc(y, x, e) == -Arc(x, y, e)
  {
  }

  lemma NetOne<T>(x: T, y: T, e: Edge<T>)
    ensures Net([Edge(x, y)], e) == Arc(x, y, e)
  {
  }

  lemma NetOfTriangle<T>(a: T, b: T, c: T, e: Edge<T>)
    ensures Net(Triangle(a, b, c), e) == Arc(a, b, e) + Arc(b, c, e) + Arc(c, a, e)
  {
    var es := Triangle(a, b, c);
    assert es == [Edge(a, b)] + [Edge(b, c)] + [Edge(c, a)];
    NetAppend([Edge(a, b)] + [Edge(b, c)], [Edge(c, a)], e);
    NetAppend([Edge(a, b)], [Edge(b, c)], e);
    NetOne(a, b, e);
    NetOne(b, c, e);
    NetOne(c, a, e);
  }

  lemma NetAppend<T>(a: seq<Edge<T>>, b: seq<Edge<T>>, e: Edge<T>)
    ensures Net(a + b, e) == Net(a, e) + Net(b, e)
  {
    assert multiset(a + b) == multiset(a) + multiset(b);
  }

  lemma {:induction false} FlippedCount<T>(es: seq<Edge<T>>, e: Edge<T>)
    ensures multiset(Flipped(es))[e] == multiset(es)[Flip(e)]
  {
    if es != [] {
      FlippedCount(es[1..], e);
      assert es == [es[0]] + es[1..];
      assert Flipped(es) == [Flip(es[0])] + Flipped(es[1..]);
    }
  }

  /** Closedness as a property of the chain: nothing is left after cancelling. */
  lemma ClosedIffNetZero<T(!new)>(es: seq<Edge<T>>)
    ensures Closed(es) <==> forall e :: Net(es, e) == 0
  {
    forall e ensures multiset(Flipped(es))[e] == multiset(es)[Flip(e)] {
      FlippedCount(es, e);
    }
    if Closed(es) {
      forall e ensures Net(es, e) == 0 {
        assert multiset(es)[e] == multiset(Flipped(es))[e];
      }
    }
    if forall e :: Net(es, e) == 0 {
      forall e ensures multiset(es)[e] == multiset(Flipped(es))[e] {
        assert Net(es, e) == 0;
      }
    }
  }

  lemma {:induction false} EdgeSumAppend<T>(f: Edge<T> -> real, a: seq<Edge<T>>, b: seq<Edge<T>>)
    ensures EdgeSum(f, a + b) == EdgeSum(f, a) + EdgeSum(f, b)
  {
    if a == [] {
      assert a + b == b;
    } else {
      assert (a + b)[1..] == a[1..] + b;
      EdgeSumAppend(f, a[1..], b);
    }
  }

  lemma EdgeSumTriangle<T>(f: Edge<T> -> real, a: T, b: T, c: T)
    ensures EdgeSum(f, Triangle(a, b, c)) == f(Edge(a, b)) + f(Edge(b, c)) + f(Edge(c, a))
  {
    var es := Triangle(a, b, c);
    assert es[1..] == [Edge(b, c), Edge(c, a)];
    assert es[1..][1..] == [Edge(c, a)];
    assert EdgeSum(f, [Edge(c, a)]) == f(Edge(c, a)) by {
      assert [Edge(c, a)][1..] == [];
    }
    assert EdgeSum(f, es[1..]) == f(Edge(b, c)) + EdgeSum(f, [Edge(c, a)]);
  }

  lemma EdgeSumRemove<T>(f: Edge<T> -> real, es: seq<Edge<T>>, k: nat)
    requires k < |es|
    ensures EdgeSum(f, es) == f(es[k]) + EdgeSum(f, Without(es, k))
  {
    EdgeSumAppend(f, es[..k], es[k+1..]);
    EdgeSumAppend(f, es[..k], es[k..]);
    assert es == es[..k] + es[k..];
    assert es[k..][1..] == es[k+1..];
  }

  lemma SameRest<T>(a: multiset<T>, b: multiset<T>, x: T)
    requires a + multiset{x} == b + multiset{x}
    ensures a == b
  {
    assert a == (a + multiset{x}) - multiset{x} && b == (b + multiset{x}) - multiset{x};
  }

  /** A sum over edges does not depend on their order. */
  lemma {:induction false} EdgeSumPermutation<T>(f: Edge<T> -> real, a: seq<Edge<T>>, b: seq<Edge<T>>)
    requires multiset(a) == multiset(b)
    ensures EdgeSum(f, a) == EdgeSum(f, b)
    decreases |a|
  {
    SameMultisetSameSize(a, b);
    if a != [] {
      var k := Position(a[0], b);
      WithoutOne(a, 0);
      WithoutOne(b, k);
      EdgeSumRemove(f, a, 0);
      EdgeSumRemove(f, b, k);
      hide EdgeSum, Without;
      SameRest(multiset(Without(a, 0)), multiset(Without(b, k)), a[0]);
      EdgeSumPermutation(f, Without(a, 0), Without(b, k));
    }
  }

  lemma {:induction false} EdgeSumFlipped<T(!new)>(f: Edge<T> -> real, es: seq<Edge<T>>)
    requires Antisymmetric(f)
    ensures EdgeSum(f, Flipped(es)) == -EdgeSum(f, es)
  {
    if es != [] {
      assert Flipped(es)[1..] == Flipped(es[1..]);
      EdgeSumFlipped(f, es[1..]);
      assert f(Flip(es[0])) == -f(es[0]);
    }
  }

  /** Edge lists that agree after cancelling give the same sum of any antisymmetric edge quantity. */
  lemma SameChainSameSum<T(!new)>(f: Edge<T> -> real, a: seq<Edge<T>>, b: seq<Edge<T>>)
    requires Antisymmetric(f) && SameChain(a, b)
    ensures EdgeSum(f, a) == EdgeSum(f, b)
  {
    var l, r := a + Flipped(b), b + Flipped(a);
    forall e ensures multiset(l)[e] == multiset(r)[e] {
      FlippedCount(a, e);
      FlippedCount(b, e);
      assert multiset(l) == multiset(a) + multiset(Flipped(b));
      assert multiset(r) == multiset(b) + multiset(Flipped(a));
      assert Net(a, e) == Net(b, e);
    }
    assert multiset(l) == multiset(r);
    EdgeSumPermutation(f, l, r);
    EdgeSumAppend(f, a, Flipped(b));
    EdgeSumAppend(f, b, Flipped(a));
    EdgeSumFlipped(f, a);
    EdgeSumFlipped(f, b);
  }

  /** The sum of an antisymmetric edge quantity around a closed list is zero. */
  lemma ClosedSumsToZero<T(!new)>(f: Edge<T> -> real, es: seq<Edge<T>>)
    requires Antisymmetric(f) && Closed(es)
    ensures EdgeSum(f, es) == 0.0
  {
    EdgeSumPermutation(f, es, Flipped(es));
    EdgeSumFlipped(f, es);
  }

  /** The sum of g over the triangles of a triangle list. */
  ghost function TriangleSum<T>(g: (T, T, T) -> real, corners: seq<T>): real
    requires |corners| % 3 == 0
  {
    if corners == [] then 0.0
    else
      var n := |corners| - 3;
      TriangleSum(g, corners[..n]) + g(corners[n], corners[n+1], corners[n+2])
  }

  ghost function Scaled<T>(g: (T, T, T) -> real, k: real): (T, T, T) -> real {
    (a, b, c) => k * g(a, b, c)
  }

  lemma Distribute(k: real, a: real, b: real)
    ensures k * (a + b) == k * a + k * b
  {
  }

  lemma {:induction false} TriangleSumScaled<T>(g: (T, T, T) -> real, k: real, corners: seq<T>)
    requires |corners| % 3 == 0
    ensures TriangleSum(Scaled(g, k), corners) == k * TriangleSum(g, corners)
  {
    if corners != [] {
      var n := |corners| - 3;
      TriangleSumScaled(g, k, corners[..n]);
      Distribute(k, TriangleSum(g, corners[..n]), g(corners[n], corners[n+1], corners[n+2]));
    }
  }

  /** If h exceeds g on each triangle by an amount u and by f along its three edges, then so do their sums. */
  lemma {:induction false} TriangleSumShift<T>(g: (T, T, T) -> real, h: (T, T, T) -> real, u: (T, T, T) -> real,
                                               f: Edge<T> -> real, corners: seq<T>)
    requires |corners| % 3 == 0
    requires forall a, b, c | a in corners && b in corners && c in corners ::
      h(a, b, c) == g(a, b, c) + u(a, b, c) + f(Edge(a, b)) + f(Edge(b, c)) + f(Edge(c, a))
    ensures TriangleSum(h, corners)
         == TriangleSum(g, corners) + TriangleSum(u, corners) + EdgeSum(f, TriangleEdges(corners))
  {
    if corners != [] {
      var n := |corners| - 3;
      TriangleSumShift(g, h, u, f, corners[..n]);
      EdgeSumAppend(f, TriangleEdges(corners[..n]), Triangle(corners[n], corners[n+1], corners[n+2]));
      EdgeSumTriangle(f, corners[n], corners[n+1], corners[n+2]);
    }
  }
}
