// The radial layout (ui-assets/topology.js, radialLayout): one ring per depth,
// each subtree in a sector sized by its leaf count. Angles are exact reals;
// `circle` stands for 2 * pi.
module RadialLayout {
  import opened TidyLayout

  // A node with the ring it is on and its sector of the circle.
  datatype Sector = Sector(node: Branch, depth: nat, a0: real, a1: real)

  function Leaves(b: Branch): (n: nat)
    ensures n >= 1
  {
    if b.kids == [] then 1 else LeavesOf(b.kids)
  }

  function LeavesOf(kids: seq<Branch>): (n: nat)
    ensures kids != [] ==> n >= 1
  {
    if kids == [] then 0 else Leaves(kids[0]) + LeavesOf(kids[1..])
  }

  // ------------------------------------------------------------------ placing

  function Sectors(b: Branch, depth: nat, a0: real, a1: real): seq<Sector>
    decreases b, 1
  {
    [Sector(b, depth, a0, a1)] + KidSectors(b.kids, NextRing(depth), a0, Width(a0, a1), Leaves(b))
  }

  function NextRing(depth: nat): nat { depth + 1 }

  function Width(a0: real, a1: real): real { a1 - a0 }

  function Span(b: Branch, width: real, total: nat): real
    requires total > 0
  {
    Share(width, Leaves(b), total)
  }

  function Share(width: real, leaves: nat, total: nat): real
    requires total > 0
  {
    width * leaves as real / total as real
  }

  // The sectors of `kids` from angle `a` on, each with its share of `width` by
  // leaves out of `total`.
  function KidSectors(kids: seq<Branch>, depth: nat, a: real, width: real, total: nat): seq<Sector>
    requires total > 0
    decreases kids, 0
  {
    if kids == [] then []
    else
      var span := Span(kids[0], width, total);
      Sectors(kids[0], depth, a, Past(a, span)) + KidSectors(kids[1..], depth, Past(a, span), width, total)
  }

  // The roots share the whole circle.
  function RootSectors(roots: seq<Branch>, circle: real): seq<Sector> {
    if roots == [] then [] else KidSectors(roots, 0, 0.0, circle, LeavesOf(roots))
  }

  function RingStep(roots: seq<Branch>, circle: real): (step: real)
    requires circle > 0.0
    ensures Carries(step, Rim(circle, MaxDepth(roots)), LeavesOf(roots) as real)
  {
    StepFor(LeavesOf(roots) as real, Rim(circle, MaxDepth(roots)))
  }

  // How long the outermost ring is for each unit of the ring step.
  function Rim(circle: real, maxDepth: nat): (q: real)
    requires circle > 0.0 && maxDepth > 0
    ensures q > 0.0
  {
    Positive(circle, maxDepth as real);
    circle * maxDepth as real
  }

  function StepFor(n: real, q: real): (step: real)
    requires q > 0.0
    ensures Carries(step, q, n)
  {
    var x := n * 200.0 / q;
    assert x * q == n * 200.0;
    MulMonotone(x, Max(320.0, x), q);
    Max(320.0, x)
  }

  // A ring step of 320 or more that gives `n` leaves 200 each over `q`.
  predicate Carries(step: real, q: real, n: real) { step >= 320.0 && step * q >= n * 200.0 }

  // The deepest ring counted from a root's, but at least 1.
  function MaxDepth(roots: seq<Branch>): (d: nat)
    ensures d >= 1
  {
    if MaxHeight(roots) <= 1 then 1 else MaxHeight(roots) - 1
  }

  // With several roots every node moves out one ring.
  function DepthShift(roots: seq<Branch>): nat {
    if |roots| > 1 then 1 else 0
  }

  function Radius(roots: seq<Branch>, circle: real, depth: nat): real
    requires circle > 0.0
  {
    Ring(depth + DepthShift(roots), RingStep(roots, circle))
  }

  function Ring(n: nat, step: real): real { n as real * step }

  // ------------------------------------------------------------- exact widths

  // The angle a subtree takes when every leaf takes `unit`.
  function Arc(b: Branch, unit: real): real
    decreases b, 1
  {
    if b.kids == [] then unit else ArcOf(b.kids, unit)
  }

  function ArcOf(kids: seq<Branch>, unit: real): real
    decreases kids, 0
  {
    if kids == [] then 0.0 else Arc(kids[0], unit) + ArcOf(kids[1..], unit)
  }

  lemma {:induction false} ArcByLeaves(b: Branch, unit: real)
    ensures Arc(b, unit) == unit * Leaves(b) as real
    decreases b, 1
  {
    if b.kids != [] { ArcOfByLeaves(b.kids, unit); }
  }

  lemma {:induction false} ArcOfByLeaves(kids: seq<Branch>, unit: real)
    ensures ArcOf(kids, unit) == unit * LeavesOf(kids) as real
    decreases kids, 0
  {
    if kids != [] {
      ArcByLeaves(kids[0], unit);
      ArcOfByLeaves(kids[1..], unit);
      var x, y := Leaves(kids[0]) as real, LeavesOf(kids[1..]) as real;
      assert LeavesOf(kids) as real == x + y;
      assert unit * (x + y) == unit * x + unit * y;
    }
  }

  lemma {:induction false} ArcPositive(b: Branch, unit: real)
    requires unit > 0.0
    ensures Arc(b, unit) > 0.0
    decreases b, 1
  {
    if b.kids != [] { ArcOfPositive(b.kids, unit); }
  }

  lemma {:induction false} ArcOfPositive(kids: seq<Branch>, unit: real)
    requires unit > 0.0
    ensures ArcOf(kids, unit) >= 0.0 && (kids != [] ==> ArcOf(kids, unit) > 0.0)
    decreases kids, 0
  {
    if kids != [] {
      ArcPositive(kids[0], unit);
      ArcOfPositive(kids[1..], unit);
    }
  }

  // The same sectors, with each subtree given its own arc.
  function EvenSectors(b: Branch, depth: nat, a: real, unit: real): seq<Sector>
    decreases b, 1
  {
    [Sector(b, depth, a, a + Arc(b, unit))] + EvenKids(b.kids, NextRing(depth), a, unit)
  }

  function EvenKids(kids: seq<Branch>, depth: nat, a: real, unit: real): seq<Sector>
    decreases kids, 0
  {
    if kids == [] then []
    else EvenSectors(kids[0], depth, a, unit) + EvenKids(kids[1..], depth, Past(a, Arc(kids[0], unit)), unit)
  }

  lemma Cancel(width: real, unit: real, p: real, t: real)
    requires t > 0.0 && width == unit * t
    ensures width * p / t == unit * p
  {
    assert width * p == unit * p * t;
  }

  lemma {:induction false} SpanIsArc(b: Branch, width: real, total: nat, unit: real)
    requires total > 0 && width == unit * total as real
    ensures Span(b, width, total) == Arc(b, unit)
  {
    ArcByLeaves(b, unit);
    ShareIs(width, unit, Leaves(b), total);
  }

  lemma ShareIs(width: real, unit: real, leaves: nat, total: nat)
    requires total > 0 && width == unit * total as real
    ensures Share(width, leaves, total) == unit * leaves as real
  {
    var p, t := leaves as real, total as real;
    Cancel(width, unit, p, t);
    assert Share(width, leaves, total) == width * p / t;
  }

  lemma {:induction false} SectorsEven(b: Branch, depth: nat, a0: real, a1: real, unit: real)
    requires a1 == a0 + Arc(b, unit)
    ensures Sectors(b, depth, a0, a1) == EvenSectors(b, depth, a0, unit)
    decreases b, 1
  {
    ArcByLeaves(b, unit);
    KidSectorsEven(b.kids, NextRing(depth), a0, Width(a0, a1), Leaves(b), unit);
  }

  lemma {:induction false} KidSectorsEven(kids: seq<Branch>, depth: nat, a: real, width: real, total: nat, unit: real)
    requires total > 0 && width == unit * total as real
    ensures KidSectors(kids, depth, a, width, total) == EvenKids(kids, depth, a, unit)
    decreases kids, 0
  {
    if kids != [] {
      SpanIsArc(kids[0], width, total, unit);
      SectorsEven(kids[0], depth, a, a + Arc(kids[0], unit), unit);
      KidSectorsEven(kids[1..], depth, a + Arc(kids[0], unit), width, total, unit);
    }
  }

  // ---------------------------------------------------------------- disjointness

  ghost predicate Below(x: Branch, y: Branch) {
    exists k | k in y.kids :: x == k || Below(x, k)
  }

  ghost predicate FromKids(x: Branch, kids: seq<Branch>) {
    exists k | k in kids :: x == k || Below(x, k)
  }

  // Of two nodes, in the order they are placed, the later hangs below the earlier
  // or its sector starts where the earlier's has ended.
  ghost predicate Laminar(sectors: seq<Sector>) {
    forall i, j | 0 <= i < j < |sectors| ::
      Below(sectors[j].node, sectors[i].node) || sectors[i].a1 <= sectors[j].a0
  }

  ghost predicate Between(sectors: seq<Sector>, from: real, to: real) {
    forall i | 0 <= i < |sectors| :: from <= sectors[i].a0 <= sectors[i].a1 <= to
  }

  // Every sector is `unit` wide per leaf.
  ghost predicate Even(sectors: seq<Sector>, unit: real) {
    forall i | 0 <= i < |sectors| :: sectors[i].a1 == sectors[i].a0 + Arc(sectors[i].node, unit)
  }

  // The sectors of a list of siblings and all below them.
  ghost predicate KidsPlaced(s: seq<Sector>, kids: seq<Branch>, from: real, to: real, unit: real) {
    && Laminar(s) && Between(s, from, to) && Even(s, unit)
    && forall i | 0 <= i < |s| :: FromKids(s[i].node, kids)
  }

  // The sectors of one node, first, and of all below it.
  ghost predicate NodePlaced(s: seq<Sector>, b: Branch, from: real, to: real, unit: real) {
    && Laminar(s) && Between(s, from, to) && Even(s, unit)
    && s != [] && s[0].node == b
    && forall i | 0 < i < |s| :: Below(s[i].node, b)
  }

  lemma {:induction false} EvenSectorsPlaced(b: Branch, depth: nat, a: real, end: real, unit: real)
    requires unit > 0.0 && end == a + Arc(b, unit)
    ensures NodePlaced(EvenSectors(b, depth, a, unit), b, a, end, unit)
    decreases b, 1
  {
    ArcPositive(b, unit);
    var inner := a + ArcOf(b.kids, unit);
    EvenKidsPlaced(b.kids, NextRing(depth), a, inner, unit);
    Crown(Sector(b, depth, a, end), inner, EvenKids(b.kids, NextRing(depth), a, unit), unit);
  }

  // A node over its kids' sectors, which stay inside its own.
  lemma Crown(top: Sector, inner: real, rest: seq<Sector>, unit: real)
    requires KidsPlaced(rest, top.node.kids, top.a0, inner, unit) && inner == top.a0 + ArcOf(top.node.kids, unit)
    requires top.a1 == top.a0 + Arc(top.node, unit) && top.a0 <= top.a1
    ensures NodePlaced([top] + rest, top.node, top.a0, top.a1, unit)
  {
    var all := [top] + rest;
    forall i | 0 < i < |all| ensures all[i] == rest[i - 1] && Below(all[i].node, top.node) {
      assert FromKids(rest[i - 1].node, top.node.kids);
    }
  }

  lemma {:induction false} EvenKidsPlaced(kids: seq<Branch>, depth: nat, a: real, end: real, unit: real)
    requires unit > 0.0 && end == a + ArcOf(kids, unit)
    ensures KidsPlaced(EvenKids(kids, depth, a, unit), kids, a, end, unit)
    decreases kids, 0
  {
    if kids != [] {
      var mid := Past(a, Arc(kids[0], unit));
      ArcPositive(kids[0], unit);
      ArcOfPositive(kids[1..], unit);
      EvenSectorsPlaced(kids[0], depth, a, mid, unit);
      EvenKidsPlaced(kids[1..], depth, mid, end, unit);
      SideBySide(EvenSectors(kids[0], depth, a, unit), EvenKids(kids[1..], depth, mid, unit), kids, a, mid, end, unit);
    }
  }

  lemma SideBySide(first: seq<Sector>, rest: seq<Sector>, kids: seq<Branch>, a: real, mid: real, end: real, unit: real)
    requires kids != [] && a <= mid <= end
    requires NodePlaced(first, kids[0], a, mid, unit) && KidsPlaced(rest, kids[1..], mid, end, unit)
    ensures KidsPlaced(first + rest, kids, a, end, unit)
  {
    var all := first + rest;
    forall i | 0 <= i < |all| ensures FromKids(all[i].node, kids) {
      if i < |first| {
        assert all[i] == first[i] && kids[0] in kids;
      } else {
        assert all[i] == rest[i - |first|] && FromKids(rest[i - |first|].node, kids[1..]);
        var k :| k in kids[1..] && (all[i].node == k || Below(all[i].node, k));
        assert k in kids;
      }
    }
    forall i, j | 0 <= i < j < |all|
      ensures Below(all[j].node, all[i].node) || all[i].a1 <= all[j].a0
    {
      if j < |first| {
        assert all[i] == first[i] && all[j] == first[j];
      } else if i >= |first| {
        assert all[i] == rest[i - |first|] && all[j] == rest[j - |first|];
      } else {
        assert all[i] == first[i] && all[j] == rest[j - |first|];
      }
    }
  }

  // Over the whole forest, `unit` being the circle shared out by leaf.
  lemma ForestPlaced(roots: seq<Branch>, circle: real, unit: real)
    requires circle > 0.0 && roots != [] && circle == unit * LeavesOf(roots) as real
    ensures RootSectors(roots, circle) == EvenKids(roots, 0, 0.0, unit)
    ensures ArcOf(roots, unit) == circle && unit > 0.0
    ensures KidsPlaced(RootSectors(roots, circle), roots, 0.0, circle, unit)
  {
    UnitPositive(unit, LeavesOf(roots) as real);
    KidSectorsEven(roots, 0, 0.0, circle, LeavesOf(roots), unit);
    ArcOfByLeaves(roots, unit);
    EvenKidsPlaced(roots, 0, 0.0, circle, unit);
  }

  // ------------------------------------------------------------------ partition

  // How many nodes a branch has: its sectors are that many in a row.
  function Size(b: Branch): (n: nat)
    ensures n >= 1
  {
    1 + SizeOf(b.kids)
  }

  function SizeOf(kids: seq<Branch>): nat { if kids == [] then 0 else Size(kids[0]) + SizeOf(kids[1..]) }

  // From `at` on, each of `kids` has its sector on the ring `depth`, the first
  // starting at `from`, each next one where the one before ends, the last ending
  // at `to`.
  predicate Fills(s: seq<Sector>, at: nat, kids: seq<Branch>, from: real, to: real, depth: nat)
    decreases kids
  {
    if kids == [] then from == to
    else
      && at < |s| && s[at].node == kids[0] && s[at].depth == depth && s[at].a0 == from
      && Fills(s, at + Size(kids[0]), kids[1..], s[at].a1, to, depth)
  }

  // A node's children, if it has any, fill its sector.
  ghost predicate KidsFill(s: seq<Sector>, i: nat)
    requires i < |s|
  {
    s[i].node.kids != [] ==> Fills(s, i + 1, s[i].node.kids, s[i].a0, s[i].a1, s[i].depth + 1)
  }

  // What `s` holds from `i` on is the branch of the node there.
  ghost predicate Sliced(s: seq<Sector>, i: nat, unit: real)
    requires i < |s|
  {
    var n := Size(s[i].node);
    i + n <= |s| && s[i..i + n] == EvenSectors(s[i].node, s[i].depth, s[i].a0, unit)
  }

  ghost predicate AllSliced(s: seq<Sector>, unit: real) { forall i | 0 <= i < |s| :: Sliced(s, i, unit) }

  lemma SlicedJoin(a: seq<Sector>, b: seq<Sector>, unit: real)
    requires AllSliced(a, unit) && AllSliced(b, unit)
    ensures AllSliced(a + b, unit)
  {
    var s := a + b;
    forall i | 0 <= i < |s| ensures Sliced(s, i, unit) {
      var n := Size(s[i].node);
      if i < |a| {
        assert Sliced(a, i, unit) && s[i..i + n] == a[i..i + n];
      } else {
        assert Sliced(b, i - |a|, unit) && s[i..i + n] == b[i - |a|..i - |a| + n];
      }
    }
  }

  lemma {:induction false} NodeSliced(b: Branch, depth: nat, a: real, unit: real)
    ensures |EvenSectors(b, depth, a, unit)| == Size(b) && AllSliced(EvenSectors(b, depth, a, unit), unit)
    decreases b, 1
  {
    KidsSliced(b.kids, NextRing(depth), a, unit);
    var top, rest := Sector(b, depth, a, a + Arc(b, unit)), EvenKids(b.kids, NextRing(depth), a, unit);
    var s := [top] + rest;
    forall i | 0 <= i < |s| ensures Sliced(s, i, unit) {
      var n := Size(s[i].node);
      if i == 0 {
        assert s[0..n] == s;
      } else {
        assert Sliced(rest, i - 1, unit) && s[i..i + n] == rest[i - 1..i - 1 + n];
      }
    }
  }

  lemma {:induction false} KidsSliced(kids: seq<Branch>, depth: nat, a: real, unit: real)
    ensures |EvenKids(kids, depth, a, unit)| == SizeOf(kids) && AllSliced(EvenKids(kids, depth, a, unit), unit)
    decreases kids, 0
  {
    if kids != [] {
      var mid := Past(a, Arc(kids[0], unit));
      NodeSliced(kids[0], depth, a, unit);
      KidsSliced(kids[1..], depth, mid, unit);
      SlicedJoin(EvenSectors(kids[0], depth, a, unit), EvenKids(kids[1..], depth, mid, unit), unit);
    }
  }

  lemma {:induction false} EvenFills(s: seq<Sector>, at: nat, kids: seq<Branch>, depth: nat, a: real, to: real, unit: real)
    requires at + SizeOf(kids) <= |s| && s[at..at + SizeOf(kids)] == EvenKids(kids, depth, a, unit)
    requires to == a + ArcOf(kids, unit)
    ensures Fills(s, at, kids, a, to, depth)
    decreases kids
  {
    if kids != [] {
      var n, part := Size(kids[0]), s[at..at + SizeOf(kids)];
      NodeSliced(kids[0], depth, a, unit);
      assert part[0] == s[at] && part[0] == EvenSectors(kids[0], depth, a, unit)[0];
      assert s[at + n..at + n + SizeOf(kids[1..])] == part[n..];
      EvenFills(s, at + n, kids[1..], depth, Past(a, Arc(kids[0], unit)), to, unit);
    }
  }

  lemma SlicedFills(s: seq<Sector>, i: nat, unit: real)
    requires i < |s| && Sliced(s, i, unit) && s[i].a1 == s[i].a0 + Arc(s[i].node, unit)
    ensures KidsFill(s, i)
  {
    var x, n := s[i], Size(s[i].node);
    if x.node.kids != [] {
      assert s[i + 1..i + n] == s[i..i + n][1..];
      EvenFills(s, i + 1, x.node.kids, NextRing(x.depth), x.a0, x.a1, unit);
    }
  }

  // What each leaf gets of the circle.
  lemma UnitOf(circle: real, total: nat) returns (unit: real)
    requires total > 0
    ensures circle == unit * total as real
  {
    unit := circle / total as real;
  }

  predicate HasShare(x: Sector, circle: real, total: nat)
    requires total > 0
  {
    x.a1 - x.a0 == circle * Leaves(x.node) as real / total as real
  }

  lemma EvenHasShare(x: Sector, circle: real, total: nat, unit: real)
    requires total > 0 && circle == unit * total as real && x.a1 == x.a0 + Arc(x.node, unit)
    ensures HasShare(x, circle, total)
  {
    ArcByLeaves(x.node, unit);
    Cancel(circle, unit, Leaves(x.node) as real, total as real);
  }

  lemma AllHaveShares(s: seq<Sector>, circle: real, total: nat, unit: real)
    requires total > 0 && circle == unit * total as real && Even(s, unit)
    ensures forall i | 0 <= i < |s| :: HasShare(s[i], circle, total)
  {
    forall i | 0 <= i < |s| ensures HasShare(s[i], circle, total) { EvenHasShare(s[i], circle, total, unit); }
  }

  // The whole circle, shared out by leaf: each sector is as wide as its leaves'
  // share; the roots fill the circle, and the children of every node its sector,
  // side by side in order; and of two nodes the later placed hangs below the
  // earlier or its sector starts where the earlier's has ended.
  lemma RadialSectors(roots: seq<Branch>, circle: real)
    requires circle > 0.0 && roots != []
    ensures var s := RootSectors(roots, circle);
            && |s| == SizeOf(roots)
            && Fills(s, 0, roots, 0.0, circle, 0)
            && (forall i | 0 <= i < |s| :: KidsFill(s, i) && HasShare(s[i], circle, LeavesOf(roots)))
            && Laminar(s)
  {
    var s, unit := EvenForest(roots, circle);
    RootsFill(s, roots, circle, unit);
    forall i | 0 <= i < |s| ensures KidsFill(s, i) {
      assert Sliced(s, i, unit);
      SlicedFills(s, i, unit);
    }
  }

  // The forest's sectors, with what each leaf gets.
  lemma EvenForest(roots: seq<Branch>, circle: real) returns (s: seq<Sector>, unit: real)
    requires circle > 0.0 && roots != []
    ensures s == RootSectors(roots, circle) == EvenKids(roots, 0, 0.0, unit) && |s| == SizeOf(roots)
    ensures unit > 0.0 && ArcOf(roots, unit) == circle
    ensures Laminar(s) && Even(s, unit) && AllSliced(s, unit)
    ensures forall i | 0 <= i < |s| :: HasShare(s[i], circle, LeavesOf(roots))
  {
    unit := UnitOf(circle, LeavesOf(roots));
    ForestPlaced(roots, circle, unit);
    s := EvenKids(roots, 0, 0.0, unit);
    KidsSliced(roots, 0, 0.0, unit);
    AllHaveShares(s, circle, LeavesOf(roots), unit);
  }

  lemma RootsFill(s: seq<Sector>, roots: seq<Branch>, circle: real, unit: real)
    requires s == EvenKids(roots, 0, 0.0, unit) && |s| == SizeOf(roots) && ArcOf(roots, unit) == circle
    ensures Fills(s, 0, roots, 0.0, circle, 0)
  {
    assert s[0..SizeOf(roots)] == s;
    EvenFills(s, 0, roots, 0, 0.0, circle, unit);
  }

  ghost predicate Inside(inner: Sector, outer: Sector) { outer.a0 <= inner.a0 && inner.a1 <= outer.a1 }

  ghost predicate Disjoint(x: Sector, y: Sector) { x.a1 <= y.a0 || y.a1 <= x.a0 }

  lemma {:induction false} HoldsBelow(b: Branch, depth: nat, a: real, unit: real, x: Branch) returns (k: nat)
    requires Below(x, b)
    ensures 0 < k < |EvenSectors(b, depth, a, unit)| && EvenSectors(b, depth, a, unit)[k].node == x
    decreases b, 1
  {
    k := HoldsFromKids(b.kids, NextRing(depth), a, unit, x);
    k := k + 1;
  }

  lemma {:induction false} HoldsFromKids(kids: seq<Branch>, depth: nat, a: real, unit: real, x: Branch) returns (k: nat)
    requires FromKids(x, kids)
    ensures k < |EvenKids(kids, depth, a, unit)| && EvenKids(kids, depth, a, unit)[k].node == x
    decreases kids, 0
  {
    var mid := Past(a, Arc(kids[0], unit));
    if x == kids[0] {
      k := 0;
    } else if Below(x, kids[0]) {
      k := HoldsBelow(kids[0], depth, a, unit, x);
    } else {
      var y :| y in kids && (x == y || Below(x, y));
      assert y in kids[1..];
      k := HoldsFromKids(kids[1..], depth, mid, unit, x);
      k := k + |EvenSectors(kids[0], depth, a, unit)|;
    }
  }

  lemma BelowIsInside(s: seq<Sector>, i: nat, j: nat, unit: real)
    requires i < |s| && j < |s| && unit > 0.0 && Sliced(s, i, unit) && Below(s[j].node, s[i].node)
    requires s[i].a1 == s[i].a0 + Arc(s[i].node, unit)
    requires forall k | 0 <= k < |s| && k != j :: s[k].node != s[j].node
    ensures Inside(s[j], s[i])
  {
    var x, n := s[i], Size(s[i].node);
    var part := EvenSectors(x.node, x.depth, x.a0, unit);
    var k := HoldsBelow(x.node, x.depth, x.a0, unit, s[j].node);
    NodeSliced(x.node, x.depth, x.a0, unit);
    assert part[k] == s[i..i + n][k] == s[i + k];
    assert i + k == j;
    EvenSectorsPlaced(x.node, x.depth, x.a0, x.a1, unit);
  }

  // When no node is in the forest twice: a sector lies inside that of each node
  // above it, and nodes of which neither is above the other have disjoint sectors.
  lemma SectorsNest(roots: seq<Branch>, circle: real, i: nat, j: nat)
    requires circle > 0.0 && roots != []
    requires var s := RootSectors(roots, circle);
             i < |s| && j < |s| && i != j && forall k, l | 0 <= k < l < |s| :: s[k].node.id != s[l].node.id
    ensures var s := RootSectors(roots, circle);
            && (Below(s[j].node, s[i].node) ==> Inside(s[j], s[i]))
            && (!Below(s[j].node, s[i].node) && !Below(s[i].node, s[j].node) ==> Disjoint(s[i], s[j]))
  {
    var s, unit := EvenForest(roots, circle);
    if Below(s[j].node, s[i].node) {
      assert Sliced(s, i, unit);
      BelowIsInside(s, i, j, unit);
    }
  }

  lemma UnitPositive(unit: real, n: real)
    requires n > 0.0 && unit * n > 0.0
    ensures unit > 0.0
  {
  }

  // -------------------------------------------------------------------- the arc

  // On the outermost ring every leaf has an arc of 200 or more, unless the whole
  // forest is one lone node, which sits in the middle and has none.
  lemma OutermostArc(roots: seq<Branch>, circle: real, unit: real)
    requires circle > 0.0 && roots != [] && circle == unit * LeavesOf(roots) as real
    ensures MaxHeight(roots) >= 1
    ensures ArcLength(unit, Radius(roots, circle, MaxHeight(roots) - 1)) >= 200.0
        <==> !(|roots| == 1 && MaxHeight(roots) == 1)
  {
    Rings(roots);
    if |roots| == 1 && MaxHeight(roots) == 1 {
      CenterArc(roots, circle, unit, MaxHeight(roots) - 1);
    } else {
      OuterArc(roots, circle, unit, MaxHeight(roots) - 1 + DepthShift(roots), RingStep(roots, circle));
    }
  }

  function ArcLength(angle: real, radius: real): real { angle * radius }

  lemma CenterArc(roots: seq<Branch>, circle: real, unit: real, depth: nat)
    requires circle > 0.0 && depth + DepthShift(roots) == 0
    ensures ArcLength(unit, Radius(roots, circle, depth)) == 0.0
  {
  }

  lemma OuterArc(roots: seq<Branch>, circle: real, unit: real, n: nat, step: real)
    requires circle > 0.0 && roots != [] && circle == unit * LeavesOf(roots) as real
    requires n >= MaxDepth(roots) && Carries(step, Rim(circle, MaxDepth(roots)), LeavesOf(roots) as real)
    ensures ArcLength(unit, Ring(n, step)) >= 200.0
  {
    UnitPositive(unit, LeavesOf(roots) as real);
    ArcAtLeast(LeavesOf(roots) as real, MaxDepth(roots) as real, Rim(circle, MaxDepth(roots)), unit, step, n as real);
  }

  // The outermost ring is as far out as the ring step is divided by, or farther.
  lemma Rings(roots: seq<Branch>)
    requires roots != []
    ensures MaxHeight(roots) >= 1
    ensures var rings := MaxHeight(roots) - 1 + DepthShift(roots);
            if |roots| == 1 && MaxHeight(roots) == 1 then rings == 0 else rings >= MaxDepth(roots)
  {
  }

  lemma Positive(x: real, y: real)
    requires x > 0.0 && y > 0.0
    ensures x * y > 0.0
  {
  }

  lemma ArcAtLeast(n: real, d: real, q: real, unit: real, step: real, rings: real)
    requires n > 0.0 && d > 0.0 && unit > 0.0 && q == unit * n * d
    requires Carries(step, q, n) && rings >= d
    ensures ArcLength(unit, rings * step) >= 200.0
  {
    Regroup(n, d, unit, step);
    AtLeast(unit * (d * step), 200.0, n);
    MulMonotone(d, rings, step);
    MulMonotone(d * step, rings * step, unit);
  }

  lemma Regroup(n: real, d: real, unit: real, step: real)
    ensures step * (unit * n * d) == unit * (d * step) * n
  {
  }

  lemma AtLeast(x: real, y: real, n: real)
    requires n > 0.0 && x * n >= y * n
    ensures x >= y
  {
    if x < y {
      MulStrict(x, y, n);
    }
  }

  lemma MulMonotone(a: real, b: real, c: real)
    requires a <= b && c >= 0.0
    ensures a * c <= b * c
  {
    assert (b - a) * c >= 0.0;
  }

  lemma MulStrict(a: real, b: real, c: real)
    requires a < b && c > 0.0
    ensures a * c < b * c
  {
    assert (b - a) * c > 0.0;
  }
}
