// The flow depth of every node of a graph (ui-assets/topology.js, flowDepths):
// a memoised recursion over parents that marks a node before it is finished, so
// that it ends on graphs with cycles too.
module FlowDepths {
  import opened Graph

  // Every depth noted is final, except those of the nodes of `below`, the
  // unfinished ones.
  ghost predicate Noted(g: Parents, depth: map<Id, nat>, below: seq<Id>) {
    && Closed(g) && depth.Keys <= g.Keys
    && (forall id | id in below :: id in depth)
    && (Acyclic(g) ==> forall id | id in depth && id !in below :: IsDepth(g, id, depth[id]))
  }

  lemma NotedMark(g: Parents, depth: map<Id, nat>, below: seq<Id>, id: Id)
    requires Noted(g, depth, below) && id in g && id !in depth
    ensures Noted(g, depth[id := 0], [id] + below)
  {
  }

  lemma NotedFinal(g: Parents, depth: map<Id, nat>, below: seq<Id>, id: Id, d: nat)
    requires Noted(g, depth, [id] + below)
    requires Acyclic(g) ==> IsDepth(g, id, d)
    ensures Noted(g, depth[id := d], below)
  {
    assert forall k | k in below :: k in [id] + below;
  }

  lemma NotedDepth(g: Parents, depth: map<Id, nat>, below: seq<Id>, id: Id)
    requires Noted(g, depth, below) && id in depth && IsWalk(g, [id] + below)
    ensures Acyclic(g) ==> IsDepth(g, id, depth[id])
  {
    if id in below { ReturnIsCycle(g, id, below); }
  }

  class Depths {
    const g: Parents
    var depth: map<Id, nat>

    constructor (g: Parents)
      ensures this.g == g && depth == map[]
    {
      this.g := g;
      depth := map[];
    }

    ghost predicate Valid(below: seq<Id>)
      reads this
    {
      Noted(g, depth, below)
    }

    // Nothing noted before has changed since `was`.
    ghost predicate Keeps(was: map<Id, nat>)
      reads this
    {
      was.Keys <= depth.Keys && forall k | k in was :: depth[k] == was[k]
    }

    // The depth of `id`, asked for while reading the parents of `below[0]`, whose
    // own depth is being worked out for `below[1]`, and so on.
    method DepthOf(id: Id, ghost below: seq<Id>) returns (d: nat)
      requires Valid(below) && id in g
      requires below != [] ==> IsWalk(g, below) && Edge(g, id, below[0])
      modifies this
      ensures Valid(below) && Keeps(old(depth)) && id in depth && depth[id] == d
      ensures Acyclic(g) ==> IsDepth(g, id, d)
      decreases |g.Keys - depth.Keys|, 0
    {
      ghost var path := [id] + below;
      assert IsWalk(g, path) by {
        if below != [] { WalkPrepend(g, id, below); }
      }
      if id !in depth {
        Fewer(g.Keys, depth.Keys, depth.Keys + {id}, id);
        NotedMark(g, depth, below, id);
        depth := depth[id := 0];
        var max := MaxOfParents(id, path);
        NotedFinal(g, depth, below, id, max + 1);
        depth := depth[id := max + 1];
      } else {
        NotedDepth(g, depth, below, id);
      }
      d := depth[id];
    }

    // Math.max(-1, ...parents.map(depthOf)) for the unfinished node path[0].
    method MaxOfParents(id: Id, ghost path: seq<Id>) returns (max: int)
      requires path != [] && path[0] == id && IsWalk(g, path) && Valid(path)
      modifies this
      ensures max >= -1 && Valid(path) && Keeps(old(depth))
      ensures Acyclic(g) ==> IsDepth(g, id, max + 1)
      decreases |g.Keys - depth.Keys|, 1
    {
      max := -1;
      ghost var deepest := id;
      var k := 0;
      while k < |g[id]|
        invariant 0 <= k <= |g[id]| && max >= -1
        invariant Valid(path) && Keeps(old(depth))
        invariant Acyclic(g) ==> Covered(g, id, k, deepest, max)
      {
        var q := g[id][k];
        FewerOrEqual(g.Keys, old(depth).Keys, depth.Keys);
        var e := DepthOf(q, path);
        deepest := if e > max then q else deepest;
        max := if e > max then e else max;
        k := k + 1;
      }
      if Acyclic(g) { Finish(g, id, deepest, max); }
    }
  }

  // The first `k` parents of `id` have depths up to `max`, and the deepest of
  // them has that depth.
  ghost predicate Covered(g: Parents, id: Id, k: nat, deepest: Id, max: int)
    requires id in g && k <= |g[id]|
  {
    && (k == 0 ==> max == -1)
    && (k > 0 ==> Edge(g, deepest, id) && IsDepth(g, deepest, max))
    && forall j | 0 <= j < k :: HasDepthUpTo(g, g[id][j], max)
  }

  ghost predicate HasDepthUpTo(g: Parents, id: Id, d: int) {
    exists e :: IsDepth(g, id, e) && e <= d
  }

  lemma Finish(g: Parents, id: Id, deepest: Id, max: int)
    requires Closed(g) && id in g && Covered(g, id, |g[id]|, deepest, max)
    ensures IsDepth(g, id, max + 1)
  {
    if g[id] == [] {
      DepthOfStart(g, id);
    } else {
      forall q | q in g[id] ensures exists e :: IsDepth(g, q, e) && e <= max {
        var j :| 0 <= j < |g[id]| && g[id][j] == q;
        assert HasDepthUpTo(g, g[id][j], max);
      }
      DepthOfChild(g, id, deepest, max);
    }
  }

  // With one more key noted, fewer nodes are left.
  lemma Fewer(all: set<Id>, was: set<Id>, now: set<Id>, id: Id)
    requires id in all && id !in was && was + {id} <= now
    ensures |all - now| < |all - was|
  {
    assert id in all - was && id !in all - now;
    Smaller(all - now, all - was);
  }

  lemma FewerOrEqual(all: set<Id>, was: set<Id>, now: set<Id>)
    requires was <= now
    ensures |all - now| <= |all - was|
  {
    assert all - was == (all - now) + (all * now - was);
  }

  lemma Smaller<T>(a: set<T>, b: set<T>)
    requires a < b
    ensures |a| < |b|
  {
    assert b == a + (b - a);
  }

  // The depths of all of `ids`, asked for in any order, over any graph; on an
  // acyclic one each is the length of the longest walk to its node.
  method FlowDepths(ids: seq<Id>, parents: Parents) returns (depth: map<Id, nat>)
    requires Closed(parents) && forall id | id in ids :: id in parents
    ensures forall id | id in ids :: id in depth
    ensures depth.Keys <= parents.Keys
    ensures Acyclic(parents) ==> forall id | id in depth :: IsDepth(parents, id, depth[id])
  {
    var ds := new Depths(parents);
    for k := 0 to |ids|
      invariant ds.Valid([])
      invariant forall j | 0 <= j < k :: ids[j] in ds.depth
    {
      var _ := ds.DepthOf(ids[k], []);
    }
    depth := ds.depth;
  }
}
