/** A skeleton's tree of nodes and its poses (graphics/src/SkeletonNode.cc and graphics/src/Skeleton.cc). */
module Skeletons {

  /** The product and the inverse of transforms, whatever they are. */
  datatype Algebra<!M> = Algebra(mul: (M, M) -> M, inverse: M -> M)

  /** The shape of the tree below a node. */
  datatype Tree<M> = Tree(node: Node<M>, kids: seq<Tree<M>>)

  // -------- shapes --------

  ghost function Preorder<M>(t: Tree<M>): (r: seq<Node<M>>)
    ensures r != [] && r[0] == t.node && r[1..] == PreorderOf(t.kids)
    decreases t, 1
  {
    [t.node] + PreorderOf(t.kids)
  }

  ghost function PreorderOf<M>(ts: seq<Tree<M>>): (r: seq<Node<M>>)
    ensures forall k :: 0 <= k < |ts| ==> ts[k].node in r
    decreases ts, 0
  {
    if ts == [] then [] else Preorder(ts[0]) + PreorderOf(ts[1..])
  }

  ghost function Nodes<M>(t: Tree<M>): set<Node<M>> {
    set n | n in Preorder(t)
  }

  ghost function NodesOf<M>(ts: seq<Tree<M>>): set<Node<M>> {
    set n | n in PreorderOf(ts)
  }

  ghost function Roots<M>(ts: seq<Tree<M>>): (r: seq<Node<M>>)
    ensures |r| == |ts| && forall k :: 0 <= k < |r| ==> r[k] == ts[k].node
  {
    seq(|ts|, k requires 0 <= k < |ts| => ts[k].node)
  }

  ghost predicate NoDuplicates<T>(s: seq<T>) {
    forall j, k :: 0 <= j < k < |s| ==> s[j] != s[k]
  }

  /** The child lists and the parent links of the nodes are those of the shape. */
  ghost predicate Linked<M>(t: Tree<M>)
    reads Nodes(t)`children, Nodes(t)`parent
    decreases t, 1
  {
    t.node.children == Roots(t.kids) && LinkedTo(t.kids, t.node)
  }

  ghost predicate LinkedTo<M>(ts: seq<Tree<M>>, parent: Node<M>)
    reads NodesOf(ts)`children, NodesOf(ts)`parent
    decreases ts, 0
  {
    ts != [] ==>
      assert NodesOf(ts) == Nodes(ts[0]) + NodesOf(ts[1..]);
      ts[0].node.parent == parent && Linked(ts[0]) && LinkedTo(ts[1..], parent)
  }

  /** A whole tree: its links are right, no node occurs twice, and the root has no parent. */
  ghost predicate IsSkeleton<M>(t: Tree<M>)
    reads Nodes(t)`children, Nodes(t)`parent
  {
    Linked(t) && NoDuplicates(Preorder(t)) && t.node.parent == null
  }

  lemma {:induction false} PreorderAppend<M>(a: seq<Tree<M>>, b: seq<Tree<M>>)
    ensures PreorderOf(a + b) == PreorderOf(a) + PreorderOf(b)
  {
    if a == [] {
      assert a + b == b;
    } else {
      assert (a + b)[1..] == a[1..] + b;
      PreorderAppend(a[1..], b);
    }
  }

  lemma {:induction false} LinkedToAll<M>(ts: seq<Tree<M>>, parent: Node<M>)
    requires LinkedTo(ts, parent)
    ensures forall k :: 0 <= k < |ts| ==> Linked(ts[k]) && ts[k].node.parent == parent
  {
    if ts != [] {
      LinkedToAll(ts[1..], parent);
      assert forall k :: 1 <= k < |ts| ==> ts[k] == ts[1..][k - 1];
    }
  }

  lemma StartBelow<M>(t: Tree<M>)
    requires Linked(t)
    ensures Hangs(t.kids, [t.node]) && t.node.children == Roots(t.kids)
  {
    LinkedToAll(t.kids, t.node);
    forall k: nat | k < |t.kids| ensures HangsOne(t.kids, k, [t.node]) {
    }
  }

  lemma StartAll<M>(t: Tree<M>, done: seq<Node<M>>)
    requires Linked(t) && t.node.parent == null && done == []
    ensures PreorderOf([t]) == Preorder(t) && Hangs([t], [null] + done)
  {
    assert [t][1..] == [];
    assert HangsOne([t], 0, [null] + done);
  }

  // -------- the worklist --------

  /** Every pending tree hangs from a node that is done. */
  ghost predicate Hangs<M>(pending: seq<Tree<M>>, done: seq<Node?<M>>)
    reads NodesOf(pending)`children, NodesOf(pending)`parent
  {
    forall k :: 0 <= k < |pending| ==> HangsOne(pending, k, done)
  }

  ghost predicate HangsOne<M>(pending: seq<Tree<M>>, k: nat, done: seq<Node?<M>>)
    requires k < |pending|
    reads NodesOf(pending)`children, NodesOf(pending)`parent
  {
    assert Nodes(pending[k]) <= NodesOf(pending) by { PartOf(pending, k); }
    Linked(pending[k]) && pending[k].node.parent in done
  }

  lemma {:induction false} PartOf<M>(ts: seq<Tree<M>>, k: nat)
    requires k < |ts|
    ensures Nodes(ts[k]) <= NodesOf(ts)
  {
    assert NodesOf(ts) == Nodes(ts[0]) + NodesOf(ts[1..]);
    if k > 0 {
      PartOf(ts[1..], k - 1);
    }
  }

  /** Replacing the first pending tree by its subtrees takes one node off the front of the preorder. */
  lemma PreorderStep<M>(pending: seq<Tree<M>>)
    requires pending != []
    ensures PreorderOf(pending) == [pending[0].node] + PreorderOf(pending[0].kids + pending[1..])
  {
    PreorderAppend(pending[0].kids, pending[1..]);
  }

  lemma HangsStep<M>(pending: seq<Tree<M>>, done: seq<Node?<M>>)
    requires pending != [] && Hangs(pending, done)
    ensures pending[0].node.parent in done
    ensures pending[0].node.children == Roots(pending[0].kids)
    ensures Hangs(pending[0].kids + pending[1..], done + [pending[0].node])
  {
    var first := pending[0];
    assert HangsOne(pending, 0, done);
    LinkedToAll(first.kids, first.node);
    var next := first.kids + pending[1..];
    hide Linked, PreorderOf, Preorder;
    forall k: nat | k < |next| ensures HangsOne(next, k, done + [first.node]) {
      if k < |first.kids| {
        assert next[k] == first.kids[k];
      } else {
        assert next[k] == pending[k - |first.kids| + 1];
        assert HangsOne(pending, k - |first.kids| + 1, done);
      }
    }
  }

  lemma RootsStep<M>(pending: seq<Tree<M>>)
    requires pending != []
    ensures Roots(pending[0].kids + pending[1..]) == Roots(pending[0].kids) + Roots(pending)[1..]
  {
  }

  /**
    * The state of a traversal: the nodes still to visit are the roots of the pending trees, and those done, followed
    * by the pending trees in preorder, are all nodes.
    */
  ghost predicate Work<M>(toVisit: seq<Node?<M>>, pending: seq<Tree<M>>, done: seq<Node<M>>, all: seq<Node<M>>,
                          above: seq<Node?<M>>)
    reads NodesOf(pending)`children, NodesOf(pending)`parent
  {
    toVisit == Roots(pending) && done + PreorderOf(pending) == all && Hangs(pending, above + done)
  }

  lemma WorkStep<M>(toVisit: seq<Node?<M>>, pending: seq<Tree<M>>, done: seq<Node<M>>, all: seq<Node<M>>,
                    above: seq<Node?<M>>)
    requires Work(toVisit, pending, done, all, above) && toVisit != []
    ensures pending != [] && |done| < |all| && done == all[..|done|] && toVisit[0] == pending[0].node == all[|done|]
    ensures toVisit[0].parent in above + done
    ensures Work(toVisit[0].children + toVisit[1..], pending[0].kids + pending[1..], done + [toVisit[0]], all, above)
  {
    hide Hangs, HangsOne, PreorderOf, Linked;
    var node := pending[0].node;
    PreorderStep(pending);
    HangsStep(pending, above + done);
    RootsStep(pending);
    assert above + done + [node] == above + (done + [node]);
    assert done + ([node] + PreorderOf(pending[0].kids + pending[1..])) ==
           done + [node] + PreorderOf(pending[0].kids + pending[1..]);
  }

  lemma WorkDone<M>(toVisit: seq<Node?<M>>, pending: seq<Tree<M>>, done: seq<Node<M>>, all: seq<Node<M>>,
                    above: seq<Node?<M>>)
    requires Work(toVisit, pending, done, all, above) && toVisit == []
    ensures done == all
  {
  }

  lemma WorkBelow<M>(t: Tree<M>)
    requires Linked(t)
    ensures Work(t.node.children, t.kids, [t.node], Preorder(t), [])
  {
    StartBelow(t);
    assert [] + [t.node] == [t.node];
  }

  lemma WorkAll<M>(t: Tree<M>)
    requires Linked(t) && t.node.parent == null
    ensures Work([t.node], [t], [], Preorder(t), [null])
  {
    StartAll(t, []);
  }

  // -------- poses --------

  ghost function Transforms<M>(t: Tree<M>): map<Node<M>, M>
    reads Nodes(t)`transform
  {
    map n | n in Nodes(t) :: n.transform
  }

  ghost function Models<M>(t: Tree<M>): map<Node<M>, M>
    reads Nodes(t)`modelTransform
  {
    map n | n in Nodes(t) :: n.modelTransform
  }

  /** The pose of a node is its own transform at the root and its parent's pose times its own transform elsewhere. */
  ghost predicate PosedAt<M>(alg: Algebra<M>, local: map<Node<M>, M>, model: map<Node<M>, M>, n: Node<M>)
    reads n`parent
  {
    && n in local && n in model
    && (n.parent == null ==> model[n] == local[n])
    && (n.parent != null ==> n.parent in model && model[n] == alg.mul(model[n.parent], local[n]))
  }

  ghost predicate AllPosed<M>(alg: Algebra<M>, t: Tree<M>, local: map<Node<M>, M>, model: map<Node<M>, M>)
    reads Nodes(t)`parent
  {
    forall n :: n in Nodes(t) ==> PosedAt(alg, local, model, n)
  }

  ghost predicate Posed<M>(alg: Algebra<M>, t: Tree<M>)
    reads Nodes(t)
  {
    AllPosed(alg, t, Transforms(t), Models(t))
  }

  /** The poses of the children of n are that of n times their own transforms. */
  ghost predicate Follow<M>(alg: Algebra<M>, t: Tree<M>, local: map<Node<M>, M>, model: map<Node<M>, M>, n: Node<M>)
    requires n in Nodes(t) && local.Keys == model.Keys == Nodes(t)
    reads Nodes(t)`parent
  {
    forall c :: c in Nodes(t) && c.parent == n ==> model[c] == alg.mul(model[n], local[c])
  }

  lemma OutsideSubtree<M>(whole: Tree<M>, n: Node<M>)
    requires IsSkeleton(whole) && n in Nodes(whole)
    ensures n in Nodes(Subtree(whole, n)) && Nodes(Subtree(whole, n)) <= Nodes(whole)
    ensures forall m :: m in Nodes(whole) - Nodes(Subtree(whole, n)) ==>
      m.parent == null || m.parent in Nodes(whole) - Nodes(Subtree(whole, n))
  {
    SubtreeFacts(whole, n);
  }

  /** After a change at n and of poses below it only, posed below it and at it means posed everywhere. */
  lemma PosedAgain<M>(alg: Algebra<M>, whole: Tree<M>, n: Node<M>,
                      local: map<Node<M>, M>, model: map<Node<M>, M>, local': map<Node<M>, M>, model': map<Node<M>, M>)
    requires IsSkeleton(whole) && n in Nodes(whole)
    requires local'.Keys == local.Keys == model.Keys == model'.Keys == Nodes(whole)
    requires AllPosed(alg, whole, local, model)
    requires forall m :: m in Nodes(whole) && m != n ==> local'[m] == local[m]
    requires forall m :: m in Nodes(whole) - Nodes(Subtree(whole, n)) ==> model'[m] == model[m]
    requires forall m :: m in Nodes(Subtree(whole, n)) ==> PosedAt(alg, local', model', m)
    ensures AllPosed(alg, whole, local', model')
  {
    OutsideSubtree(whole, n);
    assert n in Preorder(whole);
    hide IsSkeleton, Subtree, Nodes;
    forall m | m in Nodes(whole) - Nodes(Subtree(whole, n)) ensures PosedAt(alg, local', model', m) {
      assert PosedAt(alg, local, model, m);
    }
  }

  lemma ParentElsewhere<M>(whole: Tree<M>, n: Node<M>)
    requires IsSkeleton(whole) && n in Nodes(whole)
    ensures n.parent != n && (n.parent != null ==> n.parent in Nodes(whole))
    ensures n.parent !in NodesOf(Subtree(whole, n).kids) && n !in NodesOf(Subtree(whole, n).kids)
    ensures NodesOf(Subtree(whole, n).kids) <= Nodes(Subtree(whole, n))
  {
    SubtreeFacts(whole, n);
    var t := Subtree(whole, n);
    assert Preorder(t) == [n] + PreorderOf(t.kids);
  }

  /** A change at n leaves another node posed exactly when it is not a child of n or follows it. */
  lemma PosedElsewhere<M>(alg: Algebra<M>, local: map<Node<M>, M>, model: map<Node<M>, M>, n: Node<M>,
                          trans: M, pose: M, m: Node<M>)
    requires m != n && n in local && n in model && PosedAt(alg, local, model, m)
    ensures
      var local', model' := local[n := trans], model[n := pose];
      PosedAt(alg, local', model', m) <==> m.parent != n || model'[m] == alg.mul(model'[n], local'[m])
  {
  }

  lemma PosedFollow<M>(alg: Algebra<M>, t: Tree<M>, local: map<Node<M>, M>, model: map<Node<M>, M>, n: Node<M>)
    requires n in Nodes(t) && local.Keys == model.Keys == Nodes(t) && AllPosed(alg, t, local, model)
    ensures Follow(alg, t, local, model, n)
  {
    hide Nodes;
    forall c | c in Nodes(t) && c.parent == n ensures model[c] == alg.mul(model[n], local[c]) {
      assert PosedAt(alg, local, model, c);
    }
  }

  lemma FollowAt<M>(alg: Algebra<M>, t: Tree<M>, local: map<Node<M>, M>, model: map<Node<M>, M>, n: Node<M>, m: Node<M>)
    requires n in Nodes(t) && m in Nodes(t) && local.Keys == model.Keys == Nodes(t) && Follow(alg, t, local, model, n)
    ensures m.parent != n || model[m] == alg.mul(model[n], local[m])
  {
  }

  /** After a change of one node only, the tree is posed exactly when that node is and its children follow it. */
  lemma PosedIfChildrenFollow<M>(alg: Algebra<M>, whole: Tree<M>, n: Node<M>,
                                 local: map<Node<M>, M>, model: map<Node<M>, M>, trans: M, pose: M)
    requires IsSkeleton(whole) && n in Nodes(whole)
    requires local.Keys == model.Keys == Nodes(whole)
    requires AllPosed(alg, whole, local, model)
    requires PosedAt(alg, local[n := trans], model[n := pose], n)
    ensures AllPosed(alg, whole, local[n := trans], model[n := pose]) <==>
            Follow(alg, whole, local[n := trans], model[n := pose], n)
  {
    ParentElsewhere(whole, n);
    hide IsSkeleton, Subtree, Nodes, NodesOf, PosedAt, Follow;
    var local', model' := local[n := trans], model[n := pose];
    if AllPosed(alg, whole, local', model') {
      PosedFollow(alg, whole, local', model', n);
    }
    if Follow(alg, whole, local', model', n) {
      forall m | m in Nodes(whole) && m != n ensures PosedAt(alg, local', model', m) {
        PosedElsewhere(alg, local, model, n, trans, pose, m);
        FollowAt(alg, whole, local', model', n, m);
      }
    }
  }

  /** Nodes from the root down to a node, each the parent of the next. */
  ghost predicate IsPath<M>(p: seq<Node<M>>)
    reads p
  {
    p != [] && p[0].parent == null && forall k :: 0 < k < |p| ==> p[k].parent == p[k - 1]
  }

  /** The product of the nodes' own transforms along a path. */
  ghost function Product<M>(alg: Algebra<M>, local: map<Node<M>, M>, p: seq<Node<M>>): M
    requires p != [] && forall n :: n in p ==> n in local
  {
    var last := p[|p| - 1];
    if |p| == 1 then local[last] else alg.mul(Product(alg, local, p[..|p| - 1]), local[last])
  }

  lemma {:induction false} PathTo<M>(t: Tree<M>, n: Node<M>) returns (p: seq<Node<M>>)
    requires Linked(t) && n in Preorder(t)
    ensures p != [] && p[0] == t.node && p[|p| - 1] == n && forall m :: m in p ==> m in Preorder(t)
    ensures forall k :: 0 < k < |p| ==> p[k].parent == p[k - 1]
    decreases t, 1
  {
    p := [t.node];
    if n != t.node {
      var rest := PathToOf(t.kids, t.node, n);
      p := p + rest;
    }
  }

  lemma {:induction false} PathToOf<M>(ts: seq<Tree<M>>, parent: Node<M>, n: Node<M>) returns (p: seq<Node<M>>)
    requires LinkedTo(ts, parent) && n in PreorderOf(ts)
    ensures p != [] && p[0].parent == parent && p[|p| - 1] == n && forall m :: m in p ==> m in PreorderOf(ts)
    ensures forall k :: 0 < k < |p| ==> p[k].parent == p[k - 1]
    decreases ts, 0
  {
    if n in Preorder(ts[0]) {
      p := PathTo(ts[0], n);
    } else {
      p := PathToOf(ts[1..], parent, n);
    }
  }

  lemma {:induction false} PosedAlong<M>(alg: Algebra<M>, t: Tree<M>, p: seq<Node<M>>)
    requires Posed(alg, t) && IsPath(p) && forall n :: n in p ==> n in Nodes(t)
    ensures p[|p| - 1].modelTransform == Product(alg, Transforms(t), p)
  {
    var n := p[|p| - 1];
    assert PosedAt(alg, Transforms(t), Models(t), n);
    if |p| > 1 {
      var q := p[..|p| - 1];
      assert forall k :: 0 < k < |q| ==> q[k].parent == q[k - 1];
      PosedAlong(alg, t, q);
    }
  }

  /** Where the poses of a node and its parent are products of paths, the node is posed. */
  lemma PosedAtEnd<M>(alg: Algebra<M>, t: Tree<M>, p: seq<Node<M>>)
    requires IsPath(p) && forall n :: n in p ==> n in Nodes(t)
    requires p[|p| - 1].modelTransform == Product(alg, Transforms(t), p)
    requires |p| > 1 ==> p[|p| - 2].modelTransform == Product(alg, Transforms(t), p[..|p| - 1])
    ensures PosedAt(alg, Transforms(t), Models(t), p[|p| - 1])
  {
    var n := p[|p| - 1];
    assert n in p;
    if |p| > 1 {
      assert n.parent == p[|p| - 2] && p[|p| - 2] in p;
    }
  }

  lemma Unposed<M>(alg: Algebra<M>, t: Tree<M>) returns (n: Node<M>)
    requires !Posed(alg, t)
    ensures n in Nodes(t) && !PosedAt(alg, Transforms(t), Models(t), n)
  {
    n :| n in Nodes(t) && !PosedAt(alg, Transforms(t), Models(t), n);
  }

  lemma PathToRoot<M>(t: Tree<M>, n: Node<M>) returns (p: seq<Node<M>>)
    requires IsSkeleton(t) && n in Nodes(t)
    ensures IsPath(p) && p[|p| - 1] == n && forall m :: m in p ==> m in Nodes(t)
  {
    p := PathTo(t, n);
  }

  /** A tree is posed exactly when every pose is the product of the transforms on the path from the root to the node. */
  lemma PosedIsProductOfPath<M>(alg: Algebra<M>, t: Tree<M>)
    requires IsSkeleton(t)
    ensures Posed(alg, t) <==>
            forall p: seq<Node<M>> :: IsPath(p) && (forall n :: n in p ==> n in Nodes(t)) ==>
              p[|p| - 1].modelTransform == Product(alg, Transforms(t), p)
  {
    hide Posed, IsSkeleton, Product, Nodes, PosedAt;
    if Posed(alg, t) {
      forall p: seq<Node<M>> | IsPath(p) && (forall n :: n in p ==> n in Nodes(t))
        ensures p[|p| - 1].modelTransform == Product(alg, Transforms(t), p)
      {
        PosedAlong(alg, t, p);
      }
    } else {
      var n := Unposed(alg, t);
      var p := PathToRoot(t, n);
      var q := p[..|p| - 1];
      assert |p| > 1 ==> IsPath(q);
      if p[|p| - 1].modelTransform == Product(alg, Transforms(t), p) &&
         (|p| > 1 ==> q[|q| - 1].modelTransform == Product(alg, Transforms(t), q)) {
        PosedAtEnd(alg, t, p);
      }
    }
  }

  /** Each of the nodes ns has its parent among the nodes ps, and its pose is its parent's pose times its own transform. */
  ghost predicate PosedBelow<M>(alg: Algebra<M>, ns: seq<Node<M>>, ps: seq<Node<M>>)
    reads ns, ps
  {
    forall n :: n in ns ==> n.parent in ps && n.modelTransform == alg.mul(n.parent.modelTransform, n.transform)
  }

  // -------- parts of a tree --------

  /** The subtree at a node. */
  ghost function Subtree<M>(t: Tree<M>, n: Node<M>): (r: Tree<M>)
    requires n in Preorder(t)
    ensures r.node == n && Nodes(r) <= Nodes(t)
    decreases t, 1
  {
    if t.node == n then t else SubtreeOf(t.kids, n)
  }

  ghost function SubtreeOf<M>(ts: seq<Tree<M>>, n: Node<M>): (r: Tree<M>)
    requires n in PreorderOf(ts)
    ensures r.node == n && Nodes(r) <= NodesOf(ts)
    decreases ts, 0
  {
    if n in Preorder(ts[0]) then Subtree(ts[0], n) else SubtreeOf(ts[1..], n)
  }

  lemma {:induction false} SubtreeIsLinked<M>(t: Tree<M>, n: Node<M>)
    requires n in Preorder(t) && Linked(t) && NoDuplicates(Preorder(t))
    ensures Linked(Subtree(t, n)) && NoDuplicates(Preorder(Subtree(t, n)))
    decreases t, 1
  {
    if t.node != n {
      assert NoDuplicates(Preorder(t)[1..]);
      SubtreeOfIsLinked(t.kids, t.node, n);
    }
  }

  lemma {:induction false} SubtreeOfIsLinked<M>(ts: seq<Tree<M>>, parent: Node<M>, n: Node<M>)
    requires n in PreorderOf(ts) && LinkedTo(ts, parent) && NoDuplicates(PreorderOf(ts))
    ensures Linked(SubtreeOf(ts, n)) && NoDuplicates(Preorder(SubtreeOf(ts, n)))
    decreases ts, 0
  {
    var a, b := Preorder(ts[0]), PreorderOf(ts[1..]);
    assert a == (a + b)[..|a|] && b == (a + b)[|a|..];
    if n in a {
      SubtreeIsLinked(ts[0], n);
    } else {
      SubtreeOfIsLinked(ts[1..], parent, n);
    }
  }

  /** Below the root of a linked tree, parent and child links are each other's inverse and stay inside the tree. */
  lemma {:induction false} LinksInside<M>(t: Tree<M>)
    requires Linked(t)
    ensures ChildrenWithin(Preorder(t), PreorderOf(t.kids))
    ensures ParentsWithin(PreorderOf(t.kids), [], Preorder(t))
    decreases t, 1
  {
    LinksInsideOf(t.kids, t.node);
  }

  ghost predicate ChildrenWithin<M>(ns: seq<Node<M>>, all: seq<Node<M>>)
    reads ns, all
  {
    forall n :: n in ns ==> forall c :: c in n.children ==> c in all && c.parent == n
  }

  ghost predicate ParentsWithin<M>(ns: seq<Node<M>>, roots: seq<Node<M>>, all: seq<Node<M>>)
    reads ns, all
  {
    forall n :: n in ns ==> n in roots || (n.parent in all && n in n.parent.children)
  }

  lemma {:induction false} LinksInsideOf<M>(ts: seq<Tree<M>>, parent: Node<M>)
    requires LinkedTo(ts, parent)
    ensures ChildrenWithin(PreorderOf(ts), PreorderOf(ts))
    ensures forall c :: c in Roots(ts) ==> c in PreorderOf(ts) && c.parent == parent
    ensures ParentsWithin(PreorderOf(ts), Roots(ts), PreorderOf(ts))
    decreases ts, 0
  {
    if ts != [] {
      LinksInside(ts[0]);
      LinksInsideOf(ts[1..], parent);
      assert Roots(ts) == [ts[0].node] + Roots(ts[1..]);
      WithinBoth(ts[0].node, PreorderOf(ts[0].kids), Roots(ts[1..]), PreorderOf(ts[1..]));
    }
  }

  lemma WithinBoth<M>(n: Node<M>, below: seq<Node<M>>, roots: seq<Node<M>>, rest: seq<Node<M>>)
    requires ChildrenWithin([n] + below, below) && ParentsWithin(below, [], [n] + below)
    requires ChildrenWithin(rest, rest) && ParentsWithin(rest, roots, rest)
    ensures ChildrenWithin([n] + below + rest, [n] + below + rest)
    ensures ParentsWithin([n] + below + rest, [n] + roots, [n] + below + rest)
  {
  }

  /** What the subtree at a node is closed under, and that nothing else in the tree hangs from it. */
  lemma SubtreeFacts<M>(whole: Tree<M>, n: Node<M>)
    requires IsSkeleton(whole) && n in Preorder(whole)
    ensures
      var t := Subtree(whole, n);
      && Linked(t) && NoDuplicates(Preorder(t)) && n.parent !in Preorder(t)
      && (forall m :: m in Preorder(whole) && m !in Preorder(t) ==> m.parent !in Preorder(t))
      && (forall m :: m in PreorderOf(t.kids) ==> m.parent in Preorder(t))
      && (forall m :: m in Preorder(whole) ==> m.parent == null || m.parent in Preorder(whole))
      && (forall m :: m in Preorder(whole) ==> (m in n.children <==> m.parent == n))
  {
    var t := Subtree(whole, n);
    SubtreeIsLinked(whole, n);
    LinksInside(whole);
    LinksInside(t);
    hide Linked, LinkedTo, PreorderOf, Subtree;
    assert Preorder(t) == [n] + PreorderOf(t.kids) && Preorder(whole) == [whole.node] + PreorderOf(whole.kids);
  }

  /** Every node below n is posed, and the poses outside the subtree are the given ones, as is that of n. */
  ghost predicate PosedUnder<M>(alg: Algebra<M>, whole: Tree<M>, n: Node<M>, model: map<Node<M>, M>)
    requires n in Nodes(whole)
    reads Nodes(whole)
  {
    && (forall m :: m in Nodes(Subtree(whole, n)) && m != n ==> PosedAt(alg, Transforms(whole), Models(whole), m))
    && (forall m :: m in Nodes(whole) && (m == n || m !in Nodes(Subtree(whole, n))) ==>
          m in model && m.modelTransform == model[m])
  }

  /** What a change at n has done to a tree that was in the state (local, model) before. */
  ghost predicate PropagatedTo<M>(alg: Algebra<M>, updateChildren: bool, whole: Tree<M>, n: Node<M>,
                                  local: map<Node<M>, M>, model: map<Node<M>, M>)
    requires n in Nodes(whole)
    reads Nodes(whole)
  {
    && Transforms(whole) == local[n := n.transform]
    && (if updateChildren then
          PosedUnder(alg, whole, n, model[n := n.modelTransform])
        else
          Models(whole) == model[n := n.modelTransform])
    && (AllPosed(alg, whole, local, model) ==>
          (Posed(alg, whole) <==>
           && PosedAt(alg, Transforms(whole), Models(whole), n)
           && (updateChildren || Follow(alg, whole, Transforms(whole), Models(whole), n))))
  }

  /** A matrix times its inverse times b is b again. */
  ghost predicate Restores<M>(alg: Algebra<M>, a: M, b: M) {
    alg.mul(a, alg.mul(alg.inverse(a), b)) == b
  }

  ghost predicate Associates<M>(alg: Algebra<M>, a: M, b: M, c: M) {
    alg.mul(alg.mul(a, b), c) == alg.mul(a, alg.mul(b, c))
  }

  ghost predicate Unital<M>(alg: Algebra<M>, unit: M, a: M) {
    alg.mul(unit, a) == a == alg.mul(a, unit)
  }

  /** The product is associative and has a unit. */
  ghost predicate IsMonoid<M(!new)>(alg: Algebra<M>, unit: M) {
    (forall a, b, c :: Associates(alg, a, b, c)) && (forall a :: Unital(alg, unit, a))
  }

  /** A parent's pose restores every pose exactly when its inverse is an inverse. */
  lemma RestoresExactly<M(!new)>(alg: Algebra<M>, unit: M, a: M)
    requires IsMonoid(alg, unit)
    ensures (forall b :: Restores(alg, a, b)) <==> alg.mul(a, alg.inverse(a)) == unit
  {
    if forall b :: Restores(alg, a, b) {
      assert Restores(alg, a, unit) && Unital(alg, unit, alg.inverse(a));
    }
    forall b | alg.mul(a, alg.inverse(a)) == unit ensures Restores(alg, a, b) {
      assert Associates(alg, a, alg.inverse(a), b) && Unital(alg, unit, b);
    }
  }

  lemma PosedBelowIs<M>(alg: Algebra<M>, whole: Tree<M>, t: Tree<M>)
    requires PosedBelow(alg, PreorderOf(t.kids), Preorder(t)) && Nodes(t) <= Nodes(whole)
    ensures forall m :: m in Nodes(t) && m != t.node ==> PosedAt(alg, Transforms(whole), Models(whole), m)
  {
    assert Preorder(t) == [t.node] + PreorderOf(t.kids);
    hide Preorder, PreorderOf;
    forall m | m in Nodes(t) && m != t.node ensures PosedAt(alg, Transforms(whole), Models(whole), m) {
      assert m in PreorderOf(t.kids) && m.parent in Nodes(t);
    }
  }

  class Node<M> {
    var transform: M
    var modelTransform: M
    var parent: Node?<M>
    var children: seq<Node<M>>
    var handle: nat

    constructor (parent: Node?<M>, initial: M)
      modifies (if parent == null then {} else {parent})`children
      ensures this.parent == parent && children == [] && transform == modelTransform == initial && handle == 0
      ensures parent != null ==> parent.children == old(parent.children) + [this]
    {
      this.parent, children, handle := parent, [], 0;
      transform, modelTransform := initial, initial;
      new;
      if parent != null {
        parent.children := parent.children + [this];
      }
    }

    /** Puts the children in front of the list, in their order, by pushing them from the last to the first. */
    method PushChildren(toVisit: seq<Node?<M>>) returns (r: seq<Node?<M>>)
      ensures r == children + toVisit
    {
      r := toVisit;
      var i := |children|;
      while i > 0
        invariant 0 <= i <= |children| && r == children[i..] + toVisit
      {
        i := i - 1;
        r := [children[i]] + r;
      }
    }

    /** Recomputes the model transform of every node below this one, parents first. */
    method UpdateChildrenTransforms(alg: Algebra<M>, ghost t: Tree<M>)
      requires t.node == this && Linked(t) && NoDuplicates(Preorder(t))
      modifies NodesOf(t.kids)`modelTransform
      ensures PosedBelow(alg, PreorderOf(t.kids), Preorder(t))
    {
      hide Work, PreorderOf, Linked;
      var toVisit: seq<Node?<M>> := children;
      ghost var pending: seq<Tree<M>>, done: seq<Node<M>> := t.kids, [this];
      WorkBelow(t);
      while toVisit != []
        invariant Work(toVisit, pending, done, Preorder(t), [])
        invariant done != [] && done[0] == this && PosedBelow(alg, done[1..], done)
        decreases |Preorder(t)| - |done|
      {
        var node := toVisit[0];
        WorkStep(toVisit, pending, done, Preorder(t), []);
        assert node == Preorder(t)[1..][|done| - 1];
        assert allocated(NodesOf(pending[0].kids + pending[1..]));
        toVisit := node.PushChildren(toVisit[1..]);
        node.modelTransform := alg.mul(node.parent.modelTransform, node.transform);
        pending := pending[0].kids + pending[1..];
        done := done + [node];
      }
      WorkDone(toVisit, pending, done, Preorder(t), []);
    }

    /** The update leaves this pose and those outside the subtree alone, and poses every node below this one. */
    method UpdateUnder(alg: Algebra<M>, ghost whole: Tree<M>)
      requires IsSkeleton(whole) && this in Nodes(whole)
      modifies NodesOf(Subtree(whole, this).kids)`modelTransform
      ensures PosedUnder(alg, whole, this, old(Models(whole)))
    {
      hide Linked, LinkedTo, PreorderOf, Subtree, PosedAt, PosedBelow;
      ghost var t := Subtree(whole, this);
      SubtreeFacts(whole, this);
      assert Preorder(t) == [this] + PreorderOf(t.kids);
      assert old(allocated(Preorder(whole)));
      UpdateChildrenTransforms(alg, t);
      PosedBelowIs(alg, whole, t);
    }

    /** The common end of both setters, called when only this node has changed since the state (local, model). */
    method Propagate(alg: Algebra<M>, updateChildren: bool, ghost whole: Tree<M>,
                     ghost local: map<Node<M>, M>, ghost model: map<Node<M>, M>)
      requires IsSkeleton(whole) && this in Nodes(whole)
      requires local.Keys == model.Keys == Nodes(whole)
      requires Transforms(whole) == local[this := transform] && Models(whole) == model[this := modelTransform]
      modifies NodesOf(Subtree(whole, this).kids)`modelTransform
      ensures PropagatedTo(alg, updateChildren, whole, this, local, model)
      ensures modelTransform == old(modelTransform)
      ensures parent != null ==> parent.modelTransform == old(parent.modelTransform)
    {
      hide Linked, LinkedTo, PreorderOf, Subtree, PosedAt;
      ParentElsewhere(whole, this);
      ghost var before := Models(whole);
      if updateChildren {
        UpdateUnder(alg, whole);
      }
      if AllPosed(alg, whole, local, model) && PosedAt(alg, Transforms(whole), Models(whole), this) {
        if updateChildren {
          PosedAgain(alg, whole, this, local, model, Transforms(whole), Models(whole));
        } else {
          PosedIfChildrenFollow(alg, whole, this, local, model, transform, modelTransform);
        }
      }
    }

    /**
      * Sets the local transform. With the update, a tree that was posed is posed again; without it, it is exactly
      * when the new pose leaves every child where it was.
      */
    method SetTransform(alg: Algebra<M>, trans: M, updateChildren: bool, ghost whole: Tree<M>)
      requires IsSkeleton(whole) && this in Nodes(whole)
      modifies this`transform, Nodes(Subtree(whole, this))`modelTransform
      ensures IsSkeleton(whole) && PosedAt(alg, Transforms(whole), Models(whole), this)
      ensures Transforms(whole) == old(Transforms(whole))[this := trans]
      ensures parent == null ==> modelTransform == trans
      ensures !updateChildren ==> Models(whole) == old(Models(whole))[this := modelTransform]
      ensures PropagatedTo(alg, updateChildren, whole, this, old(Transforms(whole)), old(Models(whole)))
      ensures old(Posed(alg, whole)) && updateChildren ==> Posed(alg, whole)
    {
      hide IsSkeleton, AllPosed, Follow, NodesOf, Preorder, PreorderOf, Subtree, PosedUnder;
      ghost var local, model := Transforms(whole), Models(whole);
      ParentElsewhere(whole, this);
      transform := trans;
      if parent == null {
        modelTransform := trans;
      } else {
        modelTransform := alg.mul(parent.modelTransform, trans);
      }
      assert PosedAt(alg, Transforms(whole), Models(whole), this);
      Propagate(alg, updateChildren, whole, local, model);
    }

    /**
      * Sets the pose and works the local transform back from the parent's. A posed tree is posed again with the update
      * exactly when the parent's pose times its inverse gives the new pose back, as it does when it is invertible.
      */
    method SetModelTransform(alg: Algebra<M>, trans: M, updateChildren: bool, ghost whole: Tree<M>)
      requires IsSkeleton(whole) && this in Nodes(whole)
      modifies this`transform, Nodes(Subtree(whole, this))`modelTransform
      ensures modelTransform == trans
      ensures PosedAt(alg, Transforms(whole), Models(whole), this) <==>
        parent == null || Restores(alg, parent.modelTransform, trans)
      ensures PropagatedTo(alg, updateChildren, whole, this, old(Transforms(whole)), old(Models(whole)))
      ensures old(Posed(alg, whole)) && updateChildren ==>
        (Posed(alg, whole) <==> parent == null || Restores(alg, parent.modelTransform, trans))
    {
      hide IsSkeleton, AllPosed, Follow, NodesOf, Preorder, PreorderOf, Subtree, PosedUnder;
      ghost var local, model := Transforms(whole), Models(whole);
      ParentElsewhere(whole, this);
      modelTransform := trans;
      if parent == null {
        transform := trans;
      } else {
        var invParentTrans := alg.inverse(parent.modelTransform);
        transform := alg.mul(invParentTrans, modelTransform);
      }
      ghost var restored := parent == null || Restores(alg, parent.modelTransform, trans);
      assert PosedAt(alg, Transforms(whole), Models(whole), this) <==> restored;
      Propagate(alg, updateChildren, whole, local, model);
      assert PosedAt(alg, Transforms(whole), Models(whole), this) <==> restored;
    }
  }

  // -------- the skeleton --------

  /** The map holds the given nodes as its entries 0, 1, ... and otherwise what it held earlier. */
  ghost predicate Numbered<M>(nodes: map<nat, Node<M>>, earlier: map<nat, Node<M>>, ns: seq<Node<M>>) {
    && (forall k: nat :: k in nodes <==> k < |ns| || k in earlier)
    && (forall k: nat :: k in nodes ==> nodes[k] == if k < |ns| then ns[k] else earlier[k])
  }

  lemma NothingNumbered<M>(nodes: map<nat, Node<M>>)
    ensures Numbered(nodes, nodes, [])
  {
  }

  lemma NumberedNext<M>(nodes: map<nat, Node<M>>, earlier: map<nat, Node<M>>, ns: seq<Node<M>>, n: Node<M>)
    requires Numbered(nodes, earlier, ns)
    ensures Numbered(nodes[|ns| := n], earlier, ns + [n])
  {
  }

  /** The entries of the map, in the order of its keys. */
  ghost predicate Lists<M>(nodes: map<nat, Node<M>>, ns: seq<Node<M>>) {
    (forall k: nat :: k in nodes <==> k < |ns|) && (forall k :: 0 <= k < |ns| ==> nodes[k] == ns[k])
  }

  /** What the map lists after nodes are numbered: these, and behind them what an earlier, longer list leaves over. */
  lemma NumberedLists<M>(nodes: map<nat, Node<M>>, earlier: map<nat, Node<M>>, ns: seq<Node<M>>, es: seq<Node<M>>)
    requires Numbered(nodes, earlier, ns) && Lists(earlier, es)
    ensures Lists(nodes, ns + if |ns| < |es| then es[|ns|..] else [])
  {
  }

  lemma NotBefore<T>(s: seq<T>, i: nat)
    requires NoDuplicates(s) && i < |s|
    ensures s[i] !in s[..i] && s[..i + 1] == s[..i] + [s[i]]
  {
  }

  lemma WholeTree<M>(t: Tree<M>)
    requires IsSkeleton(t)
    ensures Linked(t) && NoDuplicates(Preorder(t)) && t.node.parent == null && t.node == Preorder(t)[0]
    ensures forall n :: n in Preorder(t) <==> n in Nodes(t)
  {
  }

  lemma RootApart<M>(t: Tree<M>)
    requires IsSkeleton(t)
    ensures t.node !in NodesOf(t.kids) && NodesOf(t.kids) <= Nodes(t)
  {
    assert Preorder(t) == [t.node] + PreorderOf(t.kids);
    assert forall n :: n in PreorderOf(t.kids) ==> exists k :: 1 <= k < |Preorder(t)| && Preorder(t)[k] == n;
  }

  /** Each of the nodes is in a skeleton, whichever it is. */
  ghost predicate Homes<M>(ns: seq<Node<M>>, trees: seq<Tree<M>>)
    reads NodesOf(trees)`children, NodesOf(trees)`parent
  {
    |trees| == |ns| && forall k :: 0 <= k < |ns| ==> Home(ns[k], trees, k)
  }

  ghost predicate Home<M>(n: Node<M>, trees: seq<Tree<M>>, k: nat)
    requires k < |trees|
    reads NodesOf(trees)`children, NodesOf(trees)`parent
  {
    assert Nodes(trees[k]) <= NodesOf(trees) by { PartOf(trees, k); }
    IsSkeleton(trees[k]) && n in Nodes(trees[k])
  }

  /** The node's pose is its own transform. */
  ghost predicate IsOwn<M>(n: Node<M>)
    reads n
  {
    n.modelTransform == n.transform
  }

  lemma OwnIs<M>(n: Node<M>)
    ensures IsOwn(n) <==> n.modelTransform == n.transform
  {
  }

  lemma EntryAt<M>(nodes: map<nat, Node<M>>, ns: seq<Node<M>>, trees: seq<Tree<M>>, k: nat)
    requires Lists(nodes, ns) && Homes(ns, trees) && k < |ns|
    ensures k in nodes && nodes[k] == ns[k] && Home(ns[k], trees, k)
    ensures k + 1 in nodes <==> k + 1 < |ns|
  {
  }

  ghost function TransformsOf<M>(all: set<Node<M>>): map<Node<M>, M>
    reads all`transform
  {
    map n | n in all :: n.transform
  }

  lemma MapUpdated<K, V>(a: map<K, V>, b: map<K, V>, k: K, v: V)
    requires k in a && b.Keys == a.Keys && b[k] == v && forall n :: n in a && n != k ==> b[n] == a[n]
    ensures b == a[k := v]
  {
  }

  lemma FieldsIn<M>(all: set<Node<M>>)
    ensures TransformsOf(all).Keys == all && forall n :: n in all ==> TransformsOf(all)[n] == n.transform
  {
  }

  ghost function Times<M>(f: M -> M, k: nat, x: M): M {
    if k == 0 then x else f(Times(f, k - 1, x))
  }

  /** The transforms after those of the given nodes have been scaled, each as often as the node occurs. */
  ghost function Scaled<M>(scaled: M -> M, local: map<Node<M>, M>, ns: seq<Node<M>>): map<Node<M>, M> {
    map n | n in local :: Times(scaled, multiset(ns)[n], local[n])
  }

  lemma FieldsOf<M>(t: Tree<M>)
    ensures Transforms(t).Keys == Nodes(t) && forall n :: n in Nodes(t) ==> Transforms(t)[n] == n.transform
    ensures Models(t).Keys == Nodes(t) && forall n :: n in Nodes(t) ==> Models(t)[n] == n.modelTransform
  {
  }

  lemma NothingScaled<M>(scaled: M -> M, local: map<Node<M>, M>)
    ensures Scaled(scaled, local, []) == local
  {
  }

  lemma ScaledNext<M>(scaled: M -> M, local: map<Node<M>, M>, ns: seq<Node<M>>, i: nat)
    requires i < |ns| && ns[i] in local
    ensures ns[i] in Scaled(scaled, local, ns[..i])
    ensures
      var before := Scaled(scaled, local, ns[..i]);
      Scaled(scaled, local, ns[..i + 1]) == before[ns[i] := scaled(before[ns[i]])]
  {
    assert ns[..i + 1] == ns[..i] + [ns[i]];
  }

  lemma {:induction false} OccursOnce<T>(s: seq<T>, x: T)
    requires NoDuplicates(s)
    ensures multiset(s)[x] == if x in s then 1 else 0
  {
    if s != [] {
      assert s == [s[0]] + s[1..];
      OccursOnce(s[1..], x);
    }
  }

  /** With the map of a fresh skeleton every node of the tree is scaled exactly once. */
  lemma FreshMapScalesOnce<M>(scaled: M -> M, t: Tree<M>, local: map<Node<M>, M>, nodes: map<nat, Node<M>>)
    requires IsSkeleton(t) && Numbered(nodes, map[], Preorder(t)) && Nodes(t) <= local.Keys
    ensures Lists(nodes, Preorder(t))
    ensures forall n :: n in Nodes(t) ==> Scaled(scaled, local, Preorder(t))[n] == scaled(local[n])
  {
    hide Preorder;
    forall n | n in Nodes(t) ensures Scaled(scaled, local, Preorder(t))[n] == scaled(local[n]) {
      OccursOnce(Preorder(t), n);
      assert Times(scaled, 1, local[n]) == scaled(Times(scaled, 0, local[n]));
    }
  }

  lemma PosedFromBelow<M>(alg: Algebra<M>, t: Tree<M>)
    requires PosedBelow(alg, PreorderOf(t.kids), Preorder(t)) && t.node.parent == null
    requires t.node.modelTransform == t.node.transform
    ensures Posed(alg, t)
  {
    assert Preorder(t) == [t.node] + PreorderOf(t.kids);
  }

  class Skeleton<M> {
    var root: Node?<M>
    var nodes: map<nat, Node<M>>

    constructor ()
      ensures root == null && nodes == map[]
    {
      root, nodes := null, map[];
    }

    /** Sets the root and numbers the nodes below it; a fresh skeleton then holds its nodes in preorder. */
    method SetRootNode(node: Node?<M>, ghost t: Tree<M>)
      requires node != null ==> IsSkeleton(t) && t.node == node
      modifies this, (if node == null then {} else Nodes(t))`handle
      ensures root == node && Numbered(nodes, old(nodes), if node == null then [] else Preorder(t))
      ensures node != null ==> forall k :: 0 <= k < |Preorder(t)| ==> Preorder(t)[k].handle == k
    {
      root := node;
      BuildNodeMap(t);
    }

    /** Numbers the nodes in preorder: the map is the inverse of the handle. Entries from earlier calls stay. */
    method BuildNodeMap(ghost t: Tree<M>)
      requires root != null ==> IsSkeleton(t) && t.node == root
      modifies this`nodes, (if root == null then {} else Nodes(t))`handle
      ensures Numbered(nodes, old(nodes), if root == null then [] else Preorder(t))
      ensures root != null ==> forall k :: 0 <= k < |Preorder(t)| ==> Preorder(t)[k].handle == k
    {
      hide Work, Preorder, PreorderOf, Linked, IsSkeleton, Numbered, NodesOf;
      var toVisit: seq<Node?<M>> := [root];
      var handle := 0;
      ghost var all := if root == null then [] else Preorder(t);
      ghost var pending: seq<Tree<M>>, done: seq<Node<M>> := [t], [];
      if root != null {
        WholeTree(t);
        WorkAll(t);
      }
      assert Numbered(nodes, old(nodes), done) by { NothingNumbered(nodes); }
      while toVisit != []
        invariant root == null ==> done == [] && (toVisit == [null] || toVisit == [])
        invariant root != null ==> Work(toVisit, pending, done, all, [null])
        invariant handle == |done| && Numbered(nodes, old(nodes), done)
        invariant forall k :: 0 <= k < |done| ==> done[k].handle == k
        decreases |all| - |done|, |toVisit|
      {
        var node := toVisit[0];
        if root != null {
          WorkStep(toVisit, pending, done, all, [null]);
          NotBefore(all, |done|);
        }
        if node == null {
          toVisit := toVisit[1..];
          continue;
        }
        assert allocated(NodesOf(pending[0].kids + pending[1..]));
        toVisit := node.PushChildren(toVisit[1..]);
        node.handle := handle;
        NumberedNext(nodes, old(nodes), done, node);
        nodes := nodes[handle := node];
        handle := handle + 1;
        pending := pending[0].kids + pending[1..];
        done := done + [node];
      }
      if root != null {
        WorkDone(toVisit, pending, done, all, [null]);
      }
    }

    /** One node of the loop. */
    method ScaleNode(alg: Algebra<M>, scaled: M -> M, node: Node<M>, ghost trees: seq<Tree<M>>, ghost k: nat)
      requires k < |trees| && Home(node, trees, k) && root != null && root.parent == null
      modifies NodesOf(trees)`transform, NodesOf(trees)`modelTransform
      ensures node in NodesOf(trees)
      ensures var local := old(TransformsOf(NodesOf(trees)));
        TransformsOf(NodesOf(trees)) == local[node := scaled(local[node])]
      ensures root == node || (root in NodesOf(trees) && old(IsOwn(root))) ==> IsOwn(root)
    {
      ghost var t, all := trees[k], NodesOf(trees);
      PartOf(trees, k);
      hide *;
      OwnIs(root);
      FieldsOf(t);
      FieldsIn(all);
      assert allocated(all);
      ghost var local := TransformsOf(all);
      node.SetTransform(alg, scaled(node.transform), false, t);
      FieldsOf(t);
      FieldsIn(all);
      MapUpdated(local, TransformsOf(all), node, scaled(local[node]));
      OwnIs(root);
    }

    /** Scales the own transform of every node that the map lists, in its order; the root's pose goes with it. */
    method ScaleNodes(alg: Algebra<M>, scaled: M -> M, ghost ns: seq<Node<M>>, ghost trees: seq<Tree<M>>)
      requires Lists(nodes, ns) && Homes(ns, trees) && ns != [] && ns[0] == root && root.parent == null
      modifies NodesOf(trees)`transform, NodesOf(trees)`modelTransform
      ensures TransformsOf(NodesOf(trees)) == Scaled(scaled, old(TransformsOf(NodesOf(trees))), ns)
      ensures Homes(ns, trees) && IsOwn(root)
    {
      hide Scaled, IsSkeleton, Subtree, Preorder, PreorderOf, Linked, AllPosed, Follow, PosedUnder, PropagatedTo;
      ghost var all := NodesOf(trees);
      ghost var before := TransformsOf(all);
      NothingScaled(scaled, before);
      assert ns[..0] == [];
      EntryAt(nodes, ns, trees, 0);
      PartOf(trees, 0);
      FieldsIn(all);
      var i := 0;
      while i in nodes
        invariant i <= |ns| && (i in nodes <==> i < |ns|) && Homes(ns, trees)
        invariant TransformsOf(all) == Scaled(scaled, before, ns[..i])
        invariant root in all && (i > 0 ==> IsOwn(root))
        decreases |ns| - i
      {
        hide *;
        var node := nodes[i];
        FieldsIn(all);
        EntryAt(nodes, ns, trees, i);
        ScaleNode(alg, scaled, node, trees, i);
        FieldsIn(all);
        ScaledNext(scaled, before, ns, i);
        i := i + 1;
      }
      assert ns[..i] == ns;
      FieldsIn(all);
    }

    /**
      * Scales the own transform of every node that the map lists, as often as it does, and poses the tree again.
      * Entries left from an earlier root are scaled with it; without a root nothing changes.
      */
    method Scale(alg: Algebra<M>, scaled: M -> M, ghost ns: seq<Node<M>>, ghost trees: seq<Tree<M>>)
      requires root != null ==> Lists(nodes, ns) && Homes(ns, trees) && ns != [] && ns[0] == trees[0].node == root
      modifies (if root == null then {} else NodesOf(trees))`transform
      modifies (if root == null then {} else NodesOf(trees))`modelTransform
      ensures root != null ==> Posed(alg, trees[0])
      ensures root != null ==> TransformsOf(NodesOf(trees)) == Scaled(scaled, old(TransformsOf(NodesOf(trees))), ns)
    {
      hide Scaled, Subtree, Preorder, PreorderOf, LinkedTo, Linked, IsSkeleton, PosedAt, AllPosed, Posed, Lists;
      if root == null {
        return;
      }
      ghost var t := trees[0];
      EntryAt(nodes, ns, trees, 0);
      PartOf(trees, 0);
      WholeTree(t);
      ScaleNodes(alg, scaled, ns, trees);
      EntryAt(nodes, ns, trees, 0);
      WholeTree(t);
      RootApart(t);
      ghost var local := TransformsOf(NodesOf(trees));
      assert allocated(NodesOf(trees));
      root.UpdateChildrenTransforms(alg, t);
      assert TransformsOf(NodesOf(trees)) == local;
      PosedFromBelow(alg, t);
    }
  }
}
