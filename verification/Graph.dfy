// Directed graphs given by each node's parents, as the canvas keeps them
// (ui-assets/topology.js). A walk follows edges from parent to child.
module Graph {

  type Id = int
  type Parents = map<Id, seq<Id>>

  // Every edge joins two nodes of the graph.
  ghost predicate Closed(g: Parents) {
    forall id, q | id in g && q in g[id] :: q in g
  }

  predicate Edge(g: Parents, from: Id, to: Id) {
    to in g && from in g[to]
  }

  ghost predicate IsWalk(g: Parents, w: seq<Id>) {
    && w != []
    && (forall k | 0 <= k < |w| :: w[k] in g)
    && forall k | 0 <= k < |w| - 1 :: Edge(g, w[k], w[k + 1])
  }

  ghost predicate WalkTo(g: Parents, w: seq<Id>, id: Id) {
    IsWalk(g, w) && w[|w| - 1] == id
  }

  // No walk of one step or more comes back to where it started.
  ghost predicate Acyclic(g: Parents) {
    forall w | IsWalk(g, w) && |w| > 1 :: w[0] != w[|w| - 1]
  }

  lemma WalkPrepend(g: Parents, q: Id, w: seq<Id>)
    requires IsWalk(g, w) && q in g && Edge(g, q, w[0])
    ensures IsWalk(g, [q] + w)
  {
    var v := [q] + w;
    forall k | 0 <= k < |v| - 1 ensures Edge(g, v[k], v[k + 1]) {
      if k > 0 { assert v[k] == w[k - 1] && v[k + 1] == w[k]; }
    }
  }

  lemma WalkAppend(g: Parents, w: seq<Id>, id: Id)
    requires IsWalk(g, w) && id in g && Edge(g, w[|w| - 1], id)
    ensures IsWalk(g, w + [id])
  {
    var v := w + [id];
    forall k | 0 <= k < |v| - 1 ensures Edge(g, v[k], v[k + 1]) {
      assert v[k] == w[k];
    }
  }

  lemma WalkSlice(g: Parents, w: seq<Id>, i: nat, j: nat)
    requires IsWalk(g, w) && i < j <= |w|
    ensures IsWalk(g, w[i..j])
  {
    var v := w[i..j];
    forall k | 0 <= k < |v| - 1 ensures Edge(g, v[k], v[k + 1]) {
      assert v[k] == w[i + k] && v[k + 1] == w[i + k + 1];
    }
  }

  // A walk that meets its first node again holds a cycle.
  lemma ReturnIsCycle(g: Parents, id: Id, below: seq<Id>)
    requires IsWalk(g, [id] + below) && id in below
    ensures !Acyclic(g)
  {
    var k :| 0 <= k < |below| && below[k] == id;
    var w := [id] + below;
    WalkSlice(g, w, 0, k + 2);
    assert w[0..k + 2][k + 1] == below[k];
  }

  lemma LastEdge(g: Parents, w: seq<Id>)
    requires IsWalk(g, w) && |w| > 1
    ensures w[|w| - 1] in g && w[|w| - 2] in g[w[|w| - 1]]
  {
    assert Edge(g, w[|w| - 2], w[|w| - 2 + 1]);
  }

  // ------------------------------------------------------------------- depth

  // `d` is the length in steps of the longest walk to `id`, and one that long
  // begins at a node without parents.
  ghost predicate IsDepth(g: Parents, id: Id, d: int) {
    && (exists w :: WalkTo(g, w, id) && |w| == d + 1 && g[w[0]] == [])
    && forall w | WalkTo(g, w, id) :: |w| <= d + 1
  }

  lemma DepthUnique(g: Parents, id: Id, d: int, e: int)
    requires IsDepth(g, id, d) && IsDepth(g, id, e)
    ensures d == e
  {
  }

  lemma DepthOfStart(g: Parents, id: Id)
    requires id in g && g[id] == []
    ensures IsDepth(g, id, 0)
  {
    assert WalkTo(g, [id], id);
    forall w | WalkTo(g, w, id) ensures |w| <= 1 {
      if |w| > 1 { LastEdge(g, w); }
    }
  }

  // The depth of a node with parents is one more than its deepest parent's.
  lemma DepthOfChild(g: Parents, id: Id, deepest: Id, d: int)
    requires id in g && Edge(g, deepest, id)
    requires IsDepth(g, deepest, d)
    requires forall q | q in g[id] :: exists e :: IsDepth(g, q, e) && e <= d
    ensures IsDepth(g, id, d + 1)
  {
    var w :| WalkTo(g, w, deepest) && |w| == d + 1 && g[w[0]] == [];
    WalkAppend(g, w, id);
    assert WalkTo(g, w + [id], id) && (w + [id])[0] == w[0];
    forall v | WalkTo(g, v, id) ensures |v| <= d + 2 {
      if |v| > 1 {
        var q := v[|v| - 2];
        LastEdge(g, v);
        WalkSlice(g, v, 0, |v| - 1);
        assert WalkTo(g, v[0..|v| - 1], q);
        assert q in g[id];
      } else {
        assert |w| >= 1;
      }
    }
  }
}
