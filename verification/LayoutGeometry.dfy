// Where the nodes end up on the canvas (ui-assets/topology.js): which axis depth
// runs along, how far out a ring is, and that boxes do not overlap, said of the
// points that LayoutHierarchy puts the nodes at.
module LayoutGeometry {
  import opened Graph
  import opened LayoutTree
  import opened TidyLayout
  import opened TreeForest
  import opened LayoutCanvas
  import opened LayoutHierarchy
  import RadialLayout

  // -------------------------------------------------------------------- radial

  // Each ring is a ring step of 320 or more outside the one before, and only a lone
  // root is in the middle.
  lemma RingsGrow(roots: seq<Branch>, circle: real, depth: nat)
    requires circle > 0.0
    ensures RadialLayout.Radius(roots, circle, depth + 1) - RadialLayout.Radius(roots, circle, depth)
         == RadialLayout.RingStep(roots, circle) >= 320.0
    ensures RadialLayout.Radius(roots, circle, depth) == 0.0 <==> depth == 0 && |roots| <= 1
  {
    var n, step := depth + RadialLayout.DepthShift(roots), RadialLayout.RingStep(roots, circle);
    assert (n + 1) as real == n as real + 1.0;
    RingsApart(n as real, step);
    if n > 0 { RadialLayout.Positive(n as real, step); }
  }

  lemma RingsApart(n: real, step: real)
    ensures (n + 1.0) * step - n * step == step
  {
  }

  function Middle(s: RadialLayout.Sector): real { (s.a0 + s.a1) / 2.0 }

  // A node stands on its ring, in the middle of its sector.
  lemma RadialStands(t: Tree, screen: Screen, i: nat, s: RadialLayout.Sector)
    requires Ready(t) && screen.circle > 0.0
    requires i < |RadialLayout.RootSectors(Forest(t, [], 0), screen.circle)|
    requires s == RadialLayout.RootSectors(Forest(t, [], 0), screen.circle)[i]
    ensures i < |LayoutMarks(t, Radial, screen)|
    ensures LayoutMarks(t, Radial, screen)[i]
         == Mark(s.node.id, PolarPoint(screen, RadialLayout.Radius(Forest(t, [], 0), screen.circle, s.depth), Middle(s)))
  {
    var step, shift, sectors := RadialParts(t, screen);
    var r := RadialLayout.Radius(Forest(t, [], 0), screen.circle, s.depth);
    assert r == RadialLayout.Ring(s.depth + shift, step);
    MarkStands(screen, step, shift, sectors, i, s, r);
  }

  lemma RadialParts(t: Tree, screen: Screen) returns (step: real, shift: nat, sectors: seq<RadialLayout.Sector>)
    requires Ready(t) && screen.circle > 0.0
    ensures step == RadialLayout.RingStep(Forest(t, [], 0), screen.circle) && shift == RadialLayout.DepthShift(Forest(t, [], 0))
    ensures sectors == RadialLayout.RootSectors(Forest(t, [], 0), screen.circle)
    ensures LayoutMarks(t, Radial, screen) == RadialMarks(RadialPoint(screen, step, shift), sectors)
  {
    var roots := Forest(t, [], 0);
    step, shift := RadialLayout.RingStep(roots, screen.circle), RadialLayout.DepthShift(roots);
    sectors := RadialLayout.RootSectors(roots, screen.circle);
  }

  lemma MarkStands(screen: Screen, step: real, shift: nat, sectors: seq<RadialLayout.Sector>, i: nat, s: RadialLayout.Sector, r: real)
    requires i < |sectors| && s == sectors[i] && r == RadialLayout.Ring(s.depth + shift, step)
    ensures RadialMarks(RadialPoint(screen, step, shift), sectors)[i] == Mark(s.node.id, PolarPoint(screen, r, Middle(s)))
  {
    PointIs(screen, step, shift, s.depth, s.a0, s.a1);
  }

  function PolarPoint(screen: Screen, r: real, angle: real): Point { Point(r * screen.cos(angle), r * screen.sin(angle)) }

  lemma PointIs(screen: Screen, step: real, shift: nat, depth: nat, a0: real, a1: real)
    ensures RadialPoint(screen, step, shift)(depth, a0, a1)
         == PolarPoint(screen, RadialLayout.Ring(depth + shift, step), (a0 + a1) / 2.0)
  {
  }

  lemma OnItsRing(r: real, c: real, s: real)
    requires c * c + s * s == 1.0
    ensures (r * c) * (r * c) + (r * s) * (r * s) == r * r
  {
    assert (r * c) * (r * c) == r * r * (c * c) && (r * s) * (r * s) == r * r * (s * s);
    assert r * r * (c * c) + r * r * (s * s) == r * r * (c * c + s * s);
  }

  // --------------------------------------------------------------- tidy layouts

  // In the lanes and columns views depth runs to the right and siblings down; in
  // the top-down view the other way about.
  lemma TidyStands(t: Tree, layout: Layout, screen: Screen, i: nat)
    requires Ready(t) && screen.circle > 0.0 && layout != Radial
    requires i < |LayoutMarks(t, layout, screen)|
    ensures var s := StyleOf(layout);
            var spots, m := PlaceRoots(Forest(t, [], 0), 0.0, s, Extent(screen, s)).spots, LayoutMarks(t, layout, screen)[i];
            && i < |spots| && m.id == spots[i].id
            && (layout == Topdown ==> m.at.x == spots[i].main && m.at.y == spots[i].across)
            && (layout != Topdown ==> m.at.x == spots[i].across && m.at.y == spots[i].main)
            && m.at == PointOf(s, spots[i])
  {
  }

  // How large a node's box is along the axis siblings follow one another on.
  function Along(layout: Layout, screen: Screen, id: Id): real {
    if layout == Topdown then screen.width(id) else screen.height(id)
  }

  // Two boxes side by side in one column, or row, are a gap of 22 or more apart.
  predicate GapBetween(layout: Layout, screen: Screen, a: Mark, b: Mark) {
    var halves := (Along(layout, screen, a.id) + Along(layout, screen, b.id)) / 2.0;
    if layout == Topdown then a.at.y == b.at.y ==> Distance(a.at.x, b.at.x) >= halves + GAP
    else a.at.x == b.at.x ==> Distance(a.at.y, b.at.y) >= halves + GAP
  }

  // In every tidy view: when each box fits over its row, as it does when no box is
  // larger than its children's, and no lanes are nested in lanes, all boxes keep
  // that gap on the canvas.
  lemma BoxesApart(t: Tree, layout: Layout, screen: Screen, i: nat, j: nat)
    requires Ready(t) && screen.circle > 0.0 && layout != Radial
    requires var s := StyleOf(layout);
             && AllRoomy(Forest(t, [], 0), s, Extent(screen, s))
             && forall r | r in Forest(t, [], 0) :: FlatLanes(r, s)
    requires i < j < |LayoutMarks(t, layout, screen)|
    ensures GapBetween(layout, screen, LayoutMarks(t, layout, screen)[i], LayoutMarks(t, layout, screen)[j])
  {
    var s := StyleOf(layout);
    var ext := Extent(screen, s);
    ForestApart(Forest(t, [], 0), 0.0, s, ext);
    TidyStands(t, layout, screen, i);
    TidyStands(t, layout, screen, j);
    var spots, marks := PlaceRoots(Forest(t, [], 0), 0.0, s, ext).spots, LayoutMarks(t, layout, screen);
    assert Apart(spots[i], spots[j], ext);
    SpotsKeepGap(layout, screen, spots[i], spots[j], marks[i], marks[j]);
  }

  lemma SpotsKeepGap(layout: Layout, screen: Screen, a: Spot, b: Spot, x: Mark, y: Mark)
    requires layout != Radial && Apart(a, b, Extent(screen, StyleOf(layout))) && x.id == a.id && y.id == b.id
    requires x.at == PointOf(StyleOf(layout), a) && y.at == PointOf(StyleOf(layout), b)
    ensures GapBetween(layout, screen, x, y)
  {
    var ext := Extent(screen, StyleOf(layout));
    assert ext(a.id) == Along(layout, screen, a.id) + GAP && ext(b.id) == Along(layout, screen, b.id) + GAP;
  }

  // ---------------------------------------------------------- columns by depth

  // The nodes of a branch with their depths, a node after all below it.
  function Levels(b: Branch, depth: nat): seq<(Id, nat)>
    decreases b, 1
  {
    LevelsOf(b.kids, depth + 1) + [(b.id, depth)]
  }

  function LevelsOf(kids: seq<Branch>, depth: nat): seq<(Id, nat)>
    decreases kids, 0
  {
    if kids == [] then [] else Levels(kids[0], depth) + LevelsOf(kids[1..], depth)
  }

  // Each spot is the listed node's, 260 to the right for each step down.
  ghost predicate AtLevels(spots: seq<Spot>, levels: seq<(Id, nat)>) {
    |spots| == |levels| && forall i | 0 <= i < |spots| :: AtLevel(spots[i], levels[i])
  }

  predicate AtLevel(p: Spot, level: (Id, nat)) { p.id == level.0 && p.across == 260.0 * level.1 as real }

  lemma LevelsJoin(a: seq<Spot>, x: seq<(Id, nat)>, b: seq<Spot>, y: seq<(Id, nat)>)
    requires AtLevels(a, x) && AtLevels(b, y)
    ensures AtLevels(a + b, x + y)
  {
    forall i | 0 <= i < |a + b| ensures AtLevel((a + b)[i], (x + y)[i]) {
      if i >= |a| { assert AtLevel(b[i - |a|], y[i - |a|]); }
    }
  }

  lemma {:induction false} PlaceByLevel(b: Branch, depth: nat, cursor: real, ext: Id -> real)
    ensures AtLevels(Place(b, depth, cursor, COLUMNS, ext).spots, Levels(b, depth))
    decreases b, 1
  {
    if b.kids != [] {
      StackByLevel(b.kids, depth + 1, cursor, ext);
      NodeOverKids(b, depth, cursor, ext);
    }
  }

  lemma NodeOverKids(b: Branch, depth: nat, cursor: real, ext: Id -> real)
    requires b.kids != [] && AtLevels(PlaceStack(b.kids, depth + 1, cursor, COLUMNS, ext).spots, LevelsOf(b.kids, depth + 1))
    ensures AtLevels(Place(b, depth, cursor, COLUMNS, ext).spots, Levels(b, depth))
  {
    var row, block := PlaceStack(b.kids, depth + 1, cursor, COLUMNS, ext), Place(b, depth, cursor, COLUMNS, ext);
    var own := [Spot(b.id, Across(COLUMNS, depth), block.main)];
    assert PlaceKids(b, depth, cursor, COLUMNS, ext) == row;
    assert block.spots == row.spots + own;
    LevelsJoin(row.spots, LevelsOf(b.kids, depth + 1), own, [(b.id, depth)]);
  }

  lemma {:induction false} StackByLevel(kids: seq<Branch>, depth: nat, cursor: real, ext: Id -> real)
    ensures AtLevels(PlaceStack(kids, depth, cursor, COLUMNS, ext).spots, LevelsOf(kids, depth))
    decreases kids, 0
  {
    if kids != [] {
      var b := Place(kids[0], depth, cursor, COLUMNS, ext);
      PlaceByLevel(kids[0], depth, cursor, ext);
      StackByLevel(kids[1..], depth, b.end, ext);
      LevelsJoin(b.spots, Levels(kids[0], depth), PlaceStack(kids[1..], depth, b.end, COLUMNS, ext).spots, LevelsOf(kids[1..], depth));
    }
  }

  lemma {:induction false} RootsByLevel(roots: seq<Branch>, cursor: real, ext: Id -> real)
    ensures AtLevels(PlaceRoots(roots, cursor, COLUMNS, ext).spots, LevelsOf(roots, 0))
  {
    if roots != [] {
      var b := Place(roots[0], 0, cursor, COLUMNS, ext);
      PlaceByLevel(roots[0], 0, cursor, ext);
      RootsByLevel(roots[1..], Past(b.end, GAP), ext);
      LevelsJoin(b.spots, Levels(roots[0], 0), PlaceRoots(roots[1..], Past(b.end, GAP), COLUMNS, ext).spots, LevelsOf(roots[1..], 0));
    }
  }

  // The depth listed for a node is how many steps down from its root it is.
  lemma {:induction false} LevelsAreWalks(t: Tree, w: seq<Id>)
    requires Ready(t) && TreeWalk(t, w)
    ensures AllWalk(t, w, Levels(Unfold(t, w), |w| - 1))
    decreases |t.ids| - |w|, 1, 0
  {
    LevelsBelow(t, w, 0);
    forall l | l in Levels(Unfold(t, w), |w| - 1) ensures WalksTo(t, w, l) {
      if l !in LevelsOf(Forest(t, w, 0), |w|) {
        assert l == (w[|w| - 1], |w| - 1);
        assert TreeWalkTo(t, w, l.0);
      }
    }
  }

  ghost predicate AllWalk(t: Tree, w: seq<Id>, levels: seq<(Id, nat)>) { forall l | l in levels :: WalksTo(t, w, l) }

  ghost predicate WalksTo(t: Tree, w: seq<Id>, level: (Id, nat)) {
    exists v :: w <= v && TreeWalkTo(t, v, level.0) && |v| == level.1 + 1
  }

  lemma {:induction false} LevelsBelow(t: Tree, w: seq<Id>, k: nat)
    requires Ready(t) && Down(t, w) && k <= |Next(t, w)|
    ensures AllWalk(t, w, LevelsOf(Forest(t, w, k), |w|))
    decreases |t.ids| - |w|, 0, |Next(t, w)| - k
  {
    if k < |Next(t, w)| {
      var v := w + [Next(t, w)[k]];
      StepDown(t, w, Next(t, w)[k]);
      LevelsAreWalks(t, v);
      LevelsBelow(t, w, k + 1);
      LevelsFirst(t, w, k, v);
    }
  }

  lemma LevelsFirst(t: Tree, w: seq<Id>, k: nat, v: seq<Id>)
    requires Ready(t) && Down(t, w) && k < |Next(t, w)| && v == w + [Next(t, w)[k]] && TreeWalk(t, v)
    requires AllWalk(t, v, Levels(Unfold(t, v), |v| - 1)) && AllWalk(t, w, LevelsOf(Forest(t, w, k + 1), |w|))
    ensures AllWalk(t, w, LevelsOf(Forest(t, w, k), |w|))
  {
    LevelsSplit(t, w, k, v);
    var first, more := Levels(Unfold(t, v), |w|), LevelsOf(Forest(t, w, k + 1), |w|);
    forall l | l in first + more ensures WalksTo(t, w, l) {
      if l in first { LongerWalk(t, w, v, l); }
    }
  }

  lemma LevelsSplit(t: Tree, w: seq<Id>, k: nat, v: seq<Id>)
    requires Ready(t) && Down(t, w) && k < |Next(t, w)| && v == w + [Next(t, w)[k]] && TreeWalk(t, v)
    ensures LevelsOf(Forest(t, w, k), |w|) == Levels(Unfold(t, v), |w|) + LevelsOf(Forest(t, w, k + 1), |w|)
  {
    var kids := Forest(t, w, k);
    assert kids[0] == Unfold(t, v) && kids[1..] == Forest(t, w, k + 1);
  }

  lemma LongerWalk(t: Tree, w: seq<Id>, v: seq<Id>, level: (Id, nat))
    requires w <= v && WalksTo(t, v, level)
    ensures WalksTo(t, w, level)
  {
    var u :| v <= u && TreeWalkTo(t, u, level.0) && |u| == level.1 + 1;
    assert w <= u;
  }

  // In the columns view every node stands 260 to the right for each step of the
  // walk down to it.
  lemma ColumnsShowDepth(t: Tree, screen: Screen, i: nat) returns (w: seq<Id>)
    requires Ready(t) && screen.circle > 0.0 && i < |LayoutMarks(t, Columns, screen)|
    ensures var m := LayoutMarks(t, Columns, screen)[i];
            TreeWalkTo(t, w, m.id) && w != [] && m.at.x == 260.0 * (|w| - 1) as real
  {
    var roots, ext := Forest(t, [], 0), Extent(screen, COLUMNS);
    TidyStands(t, Columns, screen, i);
    RootsByLevel(roots, 0.0, ext);
    LevelsBelow(t, [], 0);
    var spots, levels := PlaceRoots(roots, 0.0, COLUMNS, ext).spots, LevelsOf(roots, 0);
    assert AllWalk(t, [], levels) && AtLevel(spots[i], levels[i]) && levels[i] in levels;
    assert WalksTo(t, [], levels[i]);
    w :| [] <= w && TreeWalkTo(t, w, levels[i].0) && |w| == levels[i].1 + 1;
  }
}
