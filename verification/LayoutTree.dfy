// The tree a layout places (ui-assets/topology.js, buildTree): every node with a
// parent hangs under its deepest one. On an acyclic graph the result is a
// spanning forest whose depths are the flow depths; on any graph a walk down
// from a root never meets a node twice, so the layouts' recursions end.
module LayoutTree {
  import opened Graph
  import FlowDepths

  datatype Tree = Tree(ids: seq<Id>, children: map<Id, seq<Id>>, roots: seq<Id>)

  datatype GraphEdge = GraphEdge(from: Id, to: Id)

  predicate Distinct(s: seq<Id>) {
    forall i, j | 0 <= i < j < |s| :: s[i] != s[j]
  }

  predicate Ascending(s: seq<Id>) {
    forall i, j | 0 <= i < j < |s| :: s[i] < s[j]
  }

  // ------------------------------------------------------------------ parents

  // The parents of each of `ids` along `edges`; an edge to a node that is not
  // among them counts for nothing.
  method ParentsAmong(ids: seq<Id>, edges: seq<GraphEdge>) returns (preds: Parents)
    ensures preds.Keys == set id | id in ids
    ensures Closed(preds)
    ensures forall from, to :: Edge(preds, from, to) <==> from in ids && to in ids && GraphEdge(from, to) in edges
  {
    preds := map id | id in ids :: [];
    for k := 0 to |edges|
      invariant preds.Keys == set id | id in ids
      invariant forall from, to ::
        Edge(preds, from, to) <==> from in ids && to in ids && GraphEdge(from, to) in edges[..k]
    {
      var e := edges[k];
      assert edges[..k + 1] == edges[..k] + [e];
      if e.from in preds && e.to in preds {
        preds := preds[e.to := preds[e.to] + [e.from]];
      }
    }
    assert edges[..|edges|] == edges;
    forall id, q | id in preds && q in preds[id] ensures q in preds {
      assert Edge(preds, q, id);
    }
  }

  // `p` is the deepest of `parents`, and the smallest of those as deep.
  ghost predicate IsDeepest(depth: map<Id, nat>, parents: seq<Id>, p: Id) {
    && p in parents && p in depth
    && forall q | q in parents :: q in depth && (depth[q] < depth[p] || (depth[q] == depth[p] && p <= q))
  }

  method Deepest(depth: map<Id, nat>, parents: seq<Id>) returns (p: Id)
    requires parents != [] && forall q | q in parents :: q in depth
    ensures IsDeepest(depth, parents, p)
  {
    p := parents[0];
    for k := 1 to |parents|
      invariant IsDeepest(depth, parents[..k], p)
    {
      var b := parents[k];
      assert parents[..k + 1] == parents[..k] + [b];
      if depth[b] > depth[p] || (depth[b] == depth[p] && b < p) {
        p := b;
      }
    }
    assert parents[..|parents|] == parents;
  }

  // ----------------------------------------------------------------- the tree

  ghost predicate HangsUnder(g: Parents, depth: map<Id, nat>, c: Id, p: Id) {
    c in g && g[c] != [] && IsDeepest(depth, g[c], p)
  }

  // What the built tree is, for parents `g` and the depths found for them.
  ghost predicate TreeOf(g: Parents, depth: map<Id, nat>, t: Tree) {
    && Closed(g) && g.Keys <= depth.Keys
    && (forall id :: id in t.ids <==> id in g)
    && t.children.Keys == g.Keys
    && (forall p | p in g :: Ascending(t.children[p]))
    && (forall p, c | p in g :: c in t.children[p] <==> HangsUnder(g, depth, c, p))
    && Ascending(t.roots)
    && (forall id :: id in t.roots <==> id in g && g[id] == [])
  }

  // A list of distinct numbers in ascending order, as Array.sort gives it.
  function Sorted(s: seq<Id>): seq<Id> {
    if s == [] then [] else Insert(s[0], Sorted(s[1..]))
  }

  function Insert(x: Id, s: seq<Id>): seq<Id> {
    if s == [] || x < s[0] then [x] + s else [s[0]] + Insert(x, s[1..])
  }

  lemma {:induction false} InsertAscends(x: Id, s: seq<Id>)
    requires Ascending(s) && x !in s
    ensures Ascending(Insert(x, s))
    ensures forall y :: y in Insert(x, s) <==> y == x || y in s
  {
    if s != [] && x > s[0] {
      InsertAscends(x, s[1..]);
      var rest := Insert(x, s[1..]);
      forall k | 0 <= k < |rest| ensures s[0] < rest[k] {
        assert rest[k] in rest;
        assert rest[k] == x || rest[k] in s[1..];
      }
    }
  }

  lemma {:induction false} SortedAscends(s: seq<Id>)
    requires Distinct(s)
    ensures Ascending(Sorted(s))
    ensures forall y :: y in Sorted(s) <==> y in s
  {
    if s != [] {
      SortedAscends(s[1..]);
      InsertAscends(s[0], Sorted(s[1..]));
    }
  }

  // Each node with a parent goes to its deepest parent's list, in the order of
  // `ids`.
  method ChildrenOf(ids: seq<Id>, preds: Parents, depths: map<Id, nat>) returns (children: map<Id, seq<Id>>)
    requires Distinct(ids) && Closed(preds) && preds.Keys == (set id | id in ids) && preds.Keys <= depths.Keys
    ensures children.Keys == preds.Keys
    ensures forall p | p in preds :: Distinct(children[p])
    ensures forall p, c | p in preds :: c in children[p] <==> HangsUnder(preds, depths, c, p)
  {
    children := map id | id in ids :: [];
    for k := 0 to |ids|
      invariant children.Keys == preds.Keys
      invariant forall p | p in preds :: Distinct(children[p])
      invariant forall p, c | p in preds :: c in children[p] <==> c in ids[..k] && HangsUnder(preds, depths, c, p)
    {
      var id := ids[k];
      assert ids[..k + 1] == ids[..k] + [id] && id !in ids[..k];
      if preds[id] != [] {
        var p := Deepest(depths, preds[id]);
        children := children[p := children[p] + [id]];
      }
    }
    assert ids[..|ids|] == ids;
  }

  method RootsOf(ids: seq<Id>, preds: Parents) returns (roots: seq<Id>)
    requires Distinct(ids) && preds.Keys == set id | id in ids
    ensures Distinct(roots)
    ensures forall id :: id in roots <==> id in preds && preds[id] == []
  {
    roots := [];
    for k := 0 to |ids|
      invariant Distinct(roots)
      invariant forall id :: id in roots <==> id in ids[..k] && preds[id] == []
    {
      assert ids[..k + 1] == ids[..k] + [ids[k]] && ids[k] !in ids[..k];
      if preds[ids[k]] == [] { roots := roots + [ids[k]]; }
    }
    assert ids[..|ids|] == ids;
  }

  method BuildTree(ids: seq<Id>, edges: seq<GraphEdge>) returns (t: Tree, ghost g: Parents, ghost depth: map<Id, nat>)
    requires Distinct(ids)
    ensures t.ids == ids && TreeOf(g, depth, t)
    ensures forall from, to :: Edge(g, from, to) <==> from in ids && to in ids && GraphEdge(from, to) in edges
    ensures Acyclic(g) ==> AllDepths(g, depth)
  {
    var preds := ParentsAmong(ids, edges);
    var depths := FlowDepths.FlowDepths(ids, preds);
    var children := ChildrenOf(ids, preds, depths);
    var roots := RootsOf(ids, preds);
    t := Tree(ids, map p | p in children :: Sorted(children[p]), Sorted(roots));
    forall p | p in children
      ensures Ascending(t.children[p]) && forall c :: c in t.children[p] <==> c in children[p]
    {
      SortedAscends(children[p]);
    }
    SortedAscends(roots);
    g, depth := preds, depths;
  }

  // ---------------------------------------------------------------- walks down

  // From a root down the tree, parent to child.
  ghost predicate TreeWalk(t: Tree, w: seq<Id>) {
    && w != [] && w[0] in t.roots
    && (forall k | 0 <= k < |w| :: w[k] in t.children)
    && forall k | 0 <= k < |w| - 1 :: w[k + 1] in t.children[w[k]]
  }

  ghost predicate TreeWalkTo(t: Tree, w: seq<Id>, id: Id) {
    TreeWalk(t, w) && w[|w| - 1] == id
  }

  // A node hangs under one node only, and a root under none.
  lemma OneTreeParent(g: Parents, depth: map<Id, nat>, t: Tree, c: Id)
    requires TreeOf(g, depth, t) && c in g
    ensures g[c] == [] ==> c in t.roots && forall p | p in g :: c !in t.children[p]
    ensures g[c] != [] ==> c !in t.roots
    ensures forall p, q | p in g && q in g && c in t.children[p] && c in t.children[q] :: p == q
  {
    forall p, q | p in g && q in g && c in t.children[p] && c in t.children[q]
      ensures p == q
    {
      assert HangsUnder(g, depth, c, p) && HangsUnder(g, depth, c, q);
    }
  }

  lemma EveryChildHangs(g: Parents, depth: map<Id, nat>, t: Tree, c: Id) returns (p: Id)
    requires TreeOf(g, depth, t) && c in g && g[c] != []
    ensures p in g && Edge(g, p, c) && c in t.children[p] && HangsUnder(g, depth, c, p)
  {
    p := DeepestExists(depth, g[c]);
    assert HangsUnder(g, depth, c, p);
    assert Edge(g, p, c);
  }

  lemma {:induction false} DeepestExists(depth: map<Id, nat>, parents: seq<Id>) returns (p: Id)
    requires parents != [] && forall q | q in parents :: q in depth
    ensures IsDeepest(depth, parents, p)
  {
    p := parents[|parents| - 1];
    if |parents| > 1 {
      var rest := parents[..|parents| - 1];
      assert parents == rest + [p];
      var a := DeepestExists(depth, rest);
      if depth[p] < depth[a] || (depth[p] == depth[a] && a < p) {
        p := a;
      }
    }
  }

  lemma LastHangs(g: Parents, depth: map<Id, nat>, t: Tree, w: seq<Id>)
    requires TreeOf(g, depth, t) && TreeWalk(t, w)
    ensures w[|w| - 1] in g
    ensures |w| == 1 ==> g[w[|w| - 1]] == []
    ensures |w| > 1 ==> w[|w| - 2] in g && w[|w| - 1] in t.children[w[|w| - 2]] && g[w[|w| - 1]] != []
  {
    OneTreeParent(g, depth, t, w[0]);
    assert w[|w| - 1] in t.children;
    if |w| > 1 {
      assert w[|w| - 2 + 1] in t.children[w[|w| - 2]];
      assert HangsUnder(g, depth, w[|w| - 1], w[|w| - 2]);
    }
  }

  // There is one way down to a node: two walks from roots to it are the same.
  lemma {:induction false} OneWalk(g: Parents, depth: map<Id, nat>, t: Tree, v: seq<Id>, w: seq<Id>)
    requires TreeOf(g, depth, t) && TreeWalk(t, v) && TreeWalk(t, w)
    requires v[|v| - 1] == w[|w| - 1]
    ensures v == w
    decreases |v|
  {
    var id := v[|v| - 1];
    OneTreeParent(g, depth, t, id);
    LastHangs(g, depth, t, v);
    LastHangs(g, depth, t, w);
    if |v| > 1 && |w| > 1 {
      TreeWalkPrefix(t, v, |v| - 1);
      TreeWalkPrefix(t, w, |w| - 1);
      OneWalk(g, depth, t, v[..|v| - 1], w[..|w| - 1]);
      assert v == v[..|v| - 1] + [id] && w == w[..|w| - 1] + [id];
    } else {
      assert v == [id] && w == [id];
    }
  }

  lemma TreeWalkPrefix(t: Tree, w: seq<Id>, k: nat)
    requires TreeWalk(t, w) && 0 < k <= |w|
    ensures TreeWalk(t, w[..k])
  {
  }

  lemma TreeWalkDown(t: Tree, w: seq<Id>, c: Id)
    requires TreeWalk(t, w) && c in t.children && c in t.children[w[|w| - 1]]
    ensures TreeWalkTo(t, w + [c], c)
  {
    var v := w + [c];
    forall k | 0 <= k < |v| - 1 ensures v[k + 1] in t.children[v[k]] {
      assert v[k] == w[k];
    }
  }

  // A walk down from a root meets no node twice, whatever cycles the graph holds:
  // it cannot enter one.
  lemma NoTwice(g: Parents, depth: map<Id, nat>, t: Tree, w: seq<Id>)
    requires TreeOf(g, depth, t) && TreeWalk(t, w)
    ensures Distinct(w)
  {
    forall i, j | 0 <= i < j < |w| ensures w[i] != w[j] {
      TreeWalkPrefix(t, w, i + 1);
      TreeWalkPrefix(t, w, j + 1);
      if w[i] == w[j] {
        OneWalk(g, depth, t, w[..i + 1], w[..j + 1]);
      }
    }
  }

  lemma {:induction false} DistinctSize(s: seq<Id>, ids: seq<Id>)
    requires Distinct(s) && forall x | x in s :: x in ids
    ensures |s| <= |ids|
  {
    if s != [] {
      var x := s[0];
      assert x in s;
      var k :| 0 <= k < |ids| && ids[k] == x;
      var rest := ids[..k] + ids[k + 1..];
      forall y | y in s[1..] ensures y in rest {
        assert y in s;
        var j :| 0 <= j < |ids| && ids[j] == y;
        assert y != x;
        if j < k { assert rest[j] == y; } else { assert rest[j - 1] == y; }
      }
      DistinctSize(s[1..], rest);
    }
  }

  // So no walk down is longer than the list of nodes: the layouts' recursion is
  // never deeper.
  lemma WalksEnd(g: Parents, depth: map<Id, nat>, t: Tree, w: seq<Id>)
    requires TreeOf(g, depth, t) && TreeWalk(t, w)
    ensures |w| <= |t.ids|
  {
    NoTwice(g, depth, t, w);
    DistinctSize(w, t.ids);
  }

  ghost predicate AllDepths(g: Parents, depth: map<Id, nat>) {
    g.Keys <= depth.Keys && forall id | id in g :: IsDepth(g, id, depth[id])
  }

  lemma RootDepth(g: Parents, depth: map<Id, nat>, id: Id)
    requires AllDepths(g, depth) && id in g && g[id] == []
    ensures depth[id] == 0
  {
    DepthOfStart(g, id);
    DepthUnique(g, id, depth[id], 0);
  }

  lemma DeepestIsOneLess(g: Parents, depth: map<Id, nat>, id: Id, p: Id)
    requires Closed(g) && HangsUnder(g, depth, id, p) && Edge(g, p, id) && AllDepths(g, depth)
    ensures depth[id] == depth[p] + 1
  {
    forall q | q in g[id] ensures exists e :: IsDepth(g, q, e) && e <= depth[p] {
      assert IsDepth(g, q, depth[q]);
    }
    DepthOfChild(g, id, p, depth[p]);
    DepthUnique(g, id, depth[id], depth[p] + 1);
  }

  // On an acyclic graph every node is reached from a root, by a walk down whose
  // length is the node's flow depth.
  lemma {:induction false} SpanningForest(g: Parents, depth: map<Id, nat>, t: Tree, id: Id) returns (w: seq<Id>)
    requires TreeOf(g, depth, t) && id in g && AllDepths(g, depth)
    ensures TreeWalkTo(t, w, id) && |w| == depth[id] + 1
    decreases depth[id]
  {
    OneTreeParent(g, depth, t, id);
    if g[id] == [] {
      RootDepth(g, depth, id);
      return [id];
    }
    var p := EveryChildHangs(g, depth, t, id);
    DeepestIsOneLess(g, depth, id, p);
    var v := SpanningForest(g, depth, t, p);
    TreeWalkDown(t, v, id);
    w := v + [id];
  }
}
