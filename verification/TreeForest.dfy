// The built tree as the forest of branches the layouts place. The forest exists
// because no walk down is endless; it holds exactly the nodes a walk down
// reaches, each once.
module TreeForest {
  import opened Graph
  import opened LayoutTree
  import opened TidyLayout

  // What a layout relies on: lists of children that stay in the tree, and one
  // bounded way down to each node.
  ghost predicate Ready(t: Tree) {
    && Distinct(t.roots)
    && (forall c | c in t.roots :: c in t.children)
    && (forall p | p in t.children :: KidsReady(t, p))
    && (forall w | TreeWalk(t, w) :: |w| <= |t.ids|)
    && (forall v, w | TreeWalk(t, v) && TreeWalk(t, w) && v[|v| - 1] == w[|w| - 1] :: v == w)
  }

  ghost predicate KidsReady(t: Tree, p: Id)
    requires p in t.children
  {
    Distinct(t.children[p]) && forall c | c in t.children[p] :: c in t.children
  }

  // Whatever the graph, cycles included.
  lemma TreeIsReady(g: Parents, depth: map<Id, nat>, t: Tree)
    requires TreeOf(g, depth, t)
    ensures Ready(t)
  {
    forall w | TreeWalk(t, w) ensures |w| <= |t.ids| { WalksEnd(g, depth, t, w); }
    forall v, w | TreeWalk(t, v) && TreeWalk(t, w) && v[|v| - 1] == w[|w| - 1] ensures v == w {
      OneWalk(g, depth, t, v, w);
    }
    forall p | p in t.children ensures KidsReady(t, p) {
      forall c | c in t.children[p] ensures c in t.children {
        assert HangsUnder(g, depth, c, p);
      }
    }
  }

  // A walk down, or none yet.
  ghost predicate Down(t: Tree, w: seq<Id>)
    ensures Down(t, w) && w != [] ==> w[|w| - 1] in t.children
  {
    w == [] || TreeWalk(t, w)
  }

  // Where a walk can go next.
  function Next(t: Tree, w: seq<Id>): seq<Id>
    requires w != [] ==> w[|w| - 1] in t.children
  {
    if w == [] then t.roots else t.children[w[|w| - 1]]
  }

  lemma StepDown(t: Tree, w: seq<Id>, c: Id)
    requires Ready(t) && Down(t, w) && c in Next(t, w)
    ensures TreeWalk(t, w + [c]) && |w| < |t.ids|
  {
    if w != [] {
      assert KidsReady(t, w[|w| - 1]);
      TreeWalkDown(t, w, c);
    }
    assert TreeWalk(t, w + [c]);
    assert |w + [c]| <= |t.ids|;
  }

  // The branch of the node `w` ends at.
  ghost function Unfold(t: Tree, w: seq<Id>): (b: Branch)
    requires Ready(t) && TreeWalk(t, w)
    decreases |t.ids| - |w|, 1, 0
  {
    Branch(w[|w| - 1], Forest(t, w, 0))
  }

  // The branches below the end of `w`, from the `k`th on; of the roots for none.
  ghost function Forest(t: Tree, w: seq<Id>, k: nat): (kids: seq<Branch>)
    requires Ready(t) && Down(t, w) && k <= |Next(t, w)|
    ensures |kids| == |Next(t, w)| - k
    decreases |t.ids| - |w|, 0, |Next(t, w)| - k
  {
    if k == |Next(t, w)| then []
    else
      StepDown(t, w, Next(t, w)[k]);
      [Unfold(t, w + [Next(t, w)[k]])] + Forest(t, w, k + 1)
  }

  // ---------------------------------------------------------------- its nodes

  function Ids(b: Branch): seq<Id>
    decreases b, 1
  {
    [b.id] + IdsOf(b.kids)
  }

  function IdsOf(kids: seq<Branch>): seq<Id>
    decreases kids, 0
  {
    if kids == [] then [] else Ids(kids[0]) + IdsOf(kids[1..])
  }

  ghost predicate Reached(t: Tree, w: seq<Id>, id: Id) {
    exists v :: TreeWalkTo(t, v, id) && w <= v
  }

  ghost predicate ReachedBelow(t: Tree, w: seq<Id>, k: nat, id: Id)
    requires w != [] ==> w[|w| - 1] in t.children
  {
    exists j :: k <= j < |Next(t, w)| && Reached(t, w + [Next(t, w)[j]], id)
  }

  lemma PrefixAt(w: seq<Id>, c: Id, v: seq<Id>)
    requires w + [c] <= v
    ensures w <= v && |v| > |w| && v[|w|] == c
  {
    assert (w + [c])[|w|] == c;
  }

  lemma ReachedSplit(t: Tree, w: seq<Id>, id: Id)
    requires Ready(t) && TreeWalk(t, w)
    ensures Reached(t, w, id) <==> id == w[|w| - 1] || ReachedBelow(t, w, 0, id)
  {
    if id == w[|w| - 1] { assert TreeWalkTo(t, w, id); }
    if Reached(t, w, id) {
      var v :| TreeWalkTo(t, v, id) && w <= v;
      if |v| > |w| { FirstStep(t, w, v); }
    }
    BelowIsReached(t, w, id);
  }

  lemma BelowIsReached(t: Tree, w: seq<Id>, id: Id)
    requires Ready(t) && TreeWalk(t, w) && Down(t, w)
    ensures ReachedBelow(t, w, 0, id) ==> Reached(t, w, id)
  {
    forall j | 0 <= j < |Next(t, w)| && Reached(t, w + [Next(t, w)[j]], id) ensures Reached(t, w, id) {
      var v :| TreeWalkTo(t, v, id) && w + [Next(t, w)[j]] <= v;
      PrefixAt(w, Next(t, w)[j], v);
    }
  }

  lemma FirstStep(t: Tree, w: seq<Id>, v: seq<Id>)
    requires Ready(t) && Down(t, w) && TreeWalk(t, v) && w <= v && |v| > |w|
    ensures ReachedBelow(t, w, 0, v[|v| - 1])
  {
    var c := v[|w|];
    if w != [] {
      assert v[|w| - 1] == w[|w| - 1];
      assert v[|w| - 1 + 1] in t.children[v[|w| - 1]];
    }
    assert c in Next(t, w);
    var j :| 0 <= j < |Next(t, w)| && Next(t, w)[j] == c;
    assert w + [c] <= v;
    assert TreeWalkTo(t, v, v[|v| - 1]);
    assert Reached(t, w + [Next(t, w)[j]], v[|v| - 1]);
  }

  lemma BelowSplit(t: Tree, w: seq<Id>, k: nat, id: Id)
    requires Ready(t) && Down(t, w) && k < |Next(t, w)|
    ensures ReachedBelow(t, w, k, id) <==> Reached(t, w + [Next(t, w)[k]], id) || ReachedBelow(t, w, k + 1, id)
  {
  }

  lemma OneEnd(t: Tree, w: seq<Id>, id: Id)
    requires Ready(t) && TreeWalkTo(t, w, id)
    ensures forall v | TreeWalkTo(t, v, id) :: v == w
  {
  }

  // Two different first steps lead to different nodes.
  lemma OneFirstStep(t: Tree, w: seq<Id>, c: Id, d: Id, id: Id)
    requires Ready(t)
    ensures Reached(t, w + [c], id) && Reached(t, w + [d], id) ==> c == d
  {
    forall u, v | TreeWalkTo(t, u, id) && w + [c] <= u && TreeWalkTo(t, v, id) && w + [d] <= v ensures c == d {
      OneEnd(t, u, id);
      PrefixAt(w, c, u);
      PrefixAt(w, d, v);
    }
  }

  lemma NextDistinct(t: Tree, w: seq<Id>)
    requires Ready(t) && Down(t, w)
    ensures Distinct(Next(t, w))
  {
    if w != [] { assert KidsReady(t, w[|w| - 1]); }
  }

  lemma StepsApart(t: Tree, w: seq<Id>, k: nat, id: Id)
    requires Ready(t) && Down(t, w) && k < |Next(t, w)|
    ensures Reached(t, w + [Next(t, w)[k]], id) ==> !ReachedBelow(t, w, k + 1, id)
  {
    NextDistinct(t, w);
    forall j | k + 1 <= j < |Next(t, w)|
      ensures Reached(t, w + [Next(t, w)[k]], id) ==> !Reached(t, w + [Next(t, w)[j]], id)
    {
      OneFirstStep(t, w, Next(t, w)[k], Next(t, w)[j], id);
    }
  }

  lemma NotBelowItself(t: Tree, w: seq<Id>, id: Id)
    requires Ready(t) && TreeWalkTo(t, w, id) && Down(t, w)
    ensures !ReachedBelow(t, w, 0, id)
  {
    OneEnd(t, w, id);
  }

  lemma DistinctJoin(a: seq<Id>, b: seq<Id>)
    requires Distinct(a) && Distinct(b) && forall x | x in a :: x !in b
    ensures Distinct(a + b)
  {
    var c := a + b;
    forall i, j | 0 <= i < j < |c| ensures c[i] != c[j] {
      if i < |a| {
        assert c[i] in a;
        if j >= |a| { assert c[j] in b; }
      }
    }
  }

  ghost predicate BranchHolds(t: Tree, w: seq<Id>)
    requires Ready(t) && TreeWalk(t, w)
  {
    var s := Ids(Unfold(t, w));
    Distinct(s) && forall id :: id in s <==> Reached(t, w, id)
  }

  ghost predicate ForestHolds(t: Tree, w: seq<Id>, k: nat)
    requires Ready(t) && Down(t, w) && k <= |Next(t, w)|
  {
    var s := IdsOf(Forest(t, w, k));
    Distinct(s) && forall id :: id in s <==> ReachedBelow(t, w, k, id)
  }

  lemma {:induction false} UnfoldHolds(t: Tree, w: seq<Id>)
    requires Ready(t) && TreeWalk(t, w)
    ensures BranchHolds(t, w)
    decreases |t.ids| - |w|, 1, 0
  {
    ForestOfWalk(t, w, 0);
    var x, s := w[|w| - 1], IdsOf(Forest(t, w, 0));
    NotBelowItself(t, w, x);
    DistinctJoin([x], s);
    forall id ensures id in Ids(Unfold(t, w)) <==> Reached(t, w, id) {
      ReachedSplit(t, w, id);
    }
  }

  // The forest below a walk holds each node reached below it once.
  lemma {:induction false} ForestOfWalk(t: Tree, w: seq<Id>, k: nat)
    requires Ready(t) && Down(t, w) && k <= |Next(t, w)|
    ensures ForestHolds(t, w, k)
    decreases |t.ids| - |w|, 0, |Next(t, w)| - k
  {
    if k < |Next(t, w)| {
      var v := w + [Next(t, w)[k]];
      StepDown(t, w, Next(t, w)[k]);
      UnfoldHolds(t, v);
      ForestOfWalk(t, w, k + 1);
      ForestStep(t, w, k);
    }
  }

  lemma ForestStep(t: Tree, w: seq<Id>, k: nat)
    requires Ready(t) && Down(t, w) && k < |Next(t, w)|
    requires TreeWalk(t, w + [Next(t, w)[k]]) && BranchHolds(t, w + [Next(t, w)[k]])
    requires ForestHolds(t, w, k + 1)
    ensures ForestHolds(t, w, k)
  {
    var a, b := Ids(Unfold(t, w + [Next(t, w)[k]])), IdsOf(Forest(t, w, k + 1));
    assert Forest(t, w, k)[1..] == Forest(t, w, k + 1);
    assert IdsOf(Forest(t, w, k)) == a + b;
    forall id ensures id in a + b <==> ReachedBelow(t, w, k, id) && (id in a ==> id !in b) {
      BelowSplit(t, w, k, id);
      StepsApart(t, w, k, id);
    }
    DistinctJoin(a, b);
  }

  // The whole forest holds each node that a walk down from a root reaches, once.
  lemma RootsHold(t: Tree)
    requires Ready(t)
    ensures Distinct(IdsOf(Forest(t, [], 0)))
    ensures forall id :: id in IdsOf(Forest(t, [], 0)) <==> Reached(t, [], id)
  {
    ForestOfWalk(t, [], 0);
    forall id ensures Reached(t, [], id) <==> ReachedBelow(t, [], 0, id) {
      if Reached(t, [], id) {
        var v :| TreeWalkTo(t, v, id);
        FirstStep(t, [], v);
      }
    }
  }
}
