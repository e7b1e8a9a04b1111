// The memoised subtree measures of the layouts (ui-assets/topology.js,
// subtreeDepthFn and countLeaves in radialLayout).
module LayoutMemo {
  import opened Graph
  import opened LayoutTree
  import opened TidyLayout
  import opened TreeForest
  import RadialLayout

  // The branches below a walk, one at a time.
  lemma ForestNext(t: Tree, w: seq<Id>, k: nat)
    requires Ready(t) && Down(t, w) && k < |Next(t, w)|
    ensures TreeWalkTo(t, w + [Next(t, w)[k]], Next(t, w)[k]) && |w| < |t.ids|
    ensures Forest(t, w, k) == [Unfold(t, w + [Next(t, w)[k]])] + Forest(t, w, k + 1)
    ensures Forest(t, w, k)[0] == Unfold(t, w + [Next(t, w)[k]]) && Forest(t, w, k)[1..] == Forest(t, w, k + 1)
  {
    StepDown(t, w, Next(t, w)[k]);
  }

  // Each depth noted is that of the branch its node is unfolded to.
  ghost predicate DepthsNoted(t: Tree, depthOf: map<Id, nat>)
    requires Ready(t)
  {
    forall w | TreeWalk(t, w) && w[|w| - 1] in depthOf :: depthOf[w[|w| - 1]] == Height(Unfold(t, w))
  }

  lemma NoteDepth(t: Tree, depthOf: map<Id, nat>, id: Id, w: seq<Id>, d: nat)
    requires Ready(t) && TreeWalkTo(t, w, id) && DepthsNoted(t, depthOf) && d == Height(Unfold(t, w))
    ensures DepthsNoted(t, depthOf[id := d])
  {
    OneEnd(t, w, id);
    forall v | TreeWalk(t, v) && v[|v| - 1] in depthOf[id := d]
      ensures depthOf[id := d][v[|v| - 1]] == Height(Unfold(t, v))
    {
      if v[|v| - 1] == id { assert TreeWalkTo(t, v, id); }
    }
  }

  function Larger(a: nat, b: nat): nat { if a >= b then a else b }

  lemma LargerOfHead(max: nat, left: seq<Branch>)
    requires left != []
    ensures Larger(max, MaxHeight(left)) == Larger(Larger(max, Height(left[0])), MaxHeight(left[1..]))
  {
  }

  class SubtreeDepth {
    const t: Tree
    var depthOf: map<Id, nat>

    constructor (t: Tree)
      requires Ready(t)
      ensures this.t == t && Valid()
    {
      this.t := t;
      depthOf := map[];
    }

    ghost predicate Valid()
      reads this
    {
      Ready(t) && DepthsNoted(t, depthOf)
    }

    method Of(id: Id, ghost w: seq<Id>) returns (d: nat)
      requires Valid() && TreeWalkTo(t, w, id)
      modifies this
      ensures Valid() && d == Height(Unfold(t, w))
      decreases |t.ids| - |w|, 1
    {
      if id in depthOf { return depthOf[id]; }
      d := Deepest(t.children[id], w);
      d := 1 + d;
      NoteDepth(t, depthOf, id, w, d);
      depthOf := depthOf[id := d];
    }

    // The largest over `kids`, 0 for none.
    method Deepest(kids: seq<Id>, ghost w: seq<Id>) returns (max: nat)
      requires Valid() && Down(t, w) && kids == Next(t, w)
      modifies this
      ensures Valid() && max == MaxHeight(Forest(t, w, 0))
      decreases |t.ids| - |w|, 0
    {
      max := 0;
      ghost var left := Forest(t, w, 0);
      var k := 0;
      while k < |kids|
        invariant k <= |kids| && Valid() && left == Forest(t, w, k)
        invariant MaxHeight(Forest(t, w, 0)) == Larger(max, MaxHeight(left))
      {
        ForestNext(t, w, k);
        var d := Of(kids[k], w + [kids[k]]);
        LargerOfHead(max, left);
        max := Larger(max, d);
        left := left[1..];
        k := k + 1;
      }
    }
  }

  ghost predicate LeavesNoted(t: Tree, leavesOf: map<Id, nat>)
    requires Ready(t)
  {
    forall w | TreeWalk(t, w) && w[|w| - 1] in leavesOf :: leavesOf[w[|w| - 1]] == RadialLayout.Leaves(Unfold(t, w))
  }

  lemma NoteLeaves(t: Tree, leavesOf: map<Id, nat>, id: Id, w: seq<Id>, n: nat)
    requires Ready(t) && TreeWalkTo(t, w, id) && LeavesNoted(t, leavesOf) && n == RadialLayout.Leaves(Unfold(t, w))
    ensures LeavesNoted(t, leavesOf[id := n])
  {
    OneEnd(t, w, id);
    forall v | TreeWalk(t, v) && v[|v| - 1] in leavesOf[id := n]
      ensures leavesOf[id := n][v[|v| - 1]] == RadialLayout.Leaves(Unfold(t, v))
    {
      if v[|v| - 1] == id { assert TreeWalkTo(t, v, id); }
    }
  }

  class LeafCount {
    const t: Tree
    var leavesOf: map<Id, nat>

    constructor (t: Tree)
      requires Ready(t)
      ensures this.t == t && Valid()
    {
      this.t := t;
      leavesOf := map[];
    }

    ghost predicate Valid()
      reads this
    {
      Ready(t) && LeavesNoted(t, leavesOf)
    }

    method Of(id: Id, ghost w: seq<Id>) returns (n: nat)
      requires Valid() && TreeWalkTo(t, w, id)
      modifies this
      ensures Valid() && n == RadialLayout.Leaves(Unfold(t, w))
      decreases |t.ids| - |w|, 1
    {
      if id in leavesOf { return leavesOf[id]; }
      var kids := t.children[id];
      n := 1;
      if kids != [] { n := Sum(kids, w); }
      NoteLeaves(t, leavesOf, id, w, n);
      leavesOf := leavesOf[id := n];
    }

    method Sum(kids: seq<Id>, ghost w: seq<Id>) returns (n: nat)
      requires Valid() && Down(t, w) && kids == Next(t, w)
      modifies this
      ensures Valid() && n == RadialLayout.LeavesOf(Forest(t, w, 0))
      decreases |t.ids| - |w|, 0
    {
      n := 0;
      ghost var left := Forest(t, w, 0);
      var k := 0;
      while k < |kids|
        invariant k <= |kids| && Valid() && left == Forest(t, w, k)
        invariant RadialLayout.LeavesOf(Forest(t, w, 0)) == n + RadialLayout.LeavesOf(left)
      {
        ForestNext(t, w, k);
        var leaves := Of(kids[k], w + [kids[k]]);
        n := n + leaves;
        left := left[1..];
        k := k + 1;
      }
    }
  }
}
