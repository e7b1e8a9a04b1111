// The whole layout of the canvas (ui-assets/topology.js, layoutHierarchy): the
// visible nodes through one of the layouts, everything it did not reach in a
// stash row below. Every node ends up in exactly one place, on any graph.
module LayoutHierarchy {
  import opened Graph
  import opened LayoutTree
  import opened TidyLayout
  import opened TreeForest
  import opened LayoutMemo
  import opened LayoutCanvas
  import RadialLayout
  import Sets

  // ------------------------------------------------------ each node placed once

  function SpotIds(spots: seq<Spot>): seq<Id> { seq(|spots|, i requires 0 <= i < |spots| => spots[i].id) }

  function MarkIds(marks: seq<Mark>): seq<Id> { seq(|marks|, i requires 0 <= i < |marks| => marks[i].id) }

  // The spots are those of the listed nodes, in some order.
  ghost predicate SpotsOf(spots: seq<Spot>, ids: seq<Id>) {
    multiset(SpotIds(spots)) == multiset(ids)
  }

  lemma SpotsJoin(a: seq<Spot>, x: seq<Id>, b: seq<Spot>, y: seq<Id>)
    requires SpotsOf(a, x) && SpotsOf(b, y)
    ensures SpotsOf(a + b, x + y) && SpotsOf(a + b, y + x)
  {
    assert SpotIds(a + b) == SpotIds(a) + SpotIds(b);
    assert multiset(y + x) == multiset(y) + multiset(x);
  }

  lemma SpotOne(spot: Spot)
    ensures SpotsOf([spot], [spot.id])
  {
    assert SpotIds([spot]) == [spot.id];
  }

  // A branch's block holds its nodes' spots.
  lemma {:induction false} PlaceIds(b: Branch, depth: nat, cursor: real, s: Style, ext: Id -> real)
    ensures SpotsOf(Place(b, depth, cursor, s, ext).spots, Ids(b))
    decreases b, 2
  {
    PlaceIs(b, depth, cursor, s, ext);
    var own := Place(b, depth, cursor, s, ext);
    if b.kids == [] {
      SpotOne(own.spots[0]);
      assert Ids(b) == [b.id];
    } else {
      var row := PlaceKids(b, depth, cursor, s, ext);
      var spot := own.spots[|row.spots|];
      KidsIds(b, depth, cursor, s, ext);
      SpotOne(spot);
      SpotsJoin(row.spots, IdsOf(b.kids), [spot], [b.id]);
    }
  }

  lemma {:induction false} KidsIds(b: Branch, depth: nat, cursor: real, s: Style, ext: Id -> real)
    requires b.kids != []
    ensures SpotsOf(PlaceKids(b, depth, cursor, s, ext).spots, IdsOf(b.kids))
    decreases b, 1
  {
    WhichKids(b, depth, cursor, s, ext);
    if s.leafPack && |b.kids| >= 4 && AllLeaves(b.kids) {
      PackIds(b.kids, 0, depth + 1, cursor, Center(cursor, ext(b.kids[0].id)), s, ext);
    } else if s.laneWrap && |b.kids| >= LANE_THRESHOLD {
      LaneIds(b.kids, depth + 1, LaneDepth(MaxHeight(b.kids)), cursor, cursor, s, ext);
    } else {
      StackIds(b.kids, depth + 1, cursor, s, ext);
    }
  }

  lemma {:induction false} StackIds(kids: seq<Branch>, depth: nat, cursor: real, s: Style, ext: Id -> real)
    ensures SpotsOf(PlaceStack(kids, depth, cursor, s, ext).spots, IdsOf(kids))
    decreases kids, 0
  {
    if kids != [] {
      var b := Place(kids[0], depth, cursor, s, ext);
      PlaceIds(kids[0], depth, cursor, s, ext);
      StackIds(kids[1..], depth, b.end, s, ext);
      SpotsJoin(b.spots, Ids(kids[0]), PlaceStack(kids[1..], depth, b.end, s, ext).spots, IdsOf(kids[1..]));
    }
  }

  lemma {:induction false} LaneIds(kids: seq<Branch>, depth: nat, laneDepth: nat, c0: real, c1: real, s: Style, ext: Id -> real)
    ensures SpotsOf(PlaceLanes(kids, depth, laneDepth, c0, c1, s, ext).spots, IdsOf(kids))
    decreases kids, 0
  {
    if kids != [] {
      var first := c0 <= c1;
      var d, from := (if first then depth else depth + laneDepth), (if first then c0 else c1);
      var b := Place(kids[0], d, from, s, ext);
      var d0, d1 := (if first then b.end else c0), (if first then c1 else b.end);
      PlaceIds(kids[0], d, from, s, ext);
      LaneIds(kids[1..], depth, laneDepth, d0, d1, s, ext);
      SpotsJoin(b.spots, Ids(kids[0]), PlaceLanes(kids[1..], depth, laneDepth, d0, d1, s, ext).spots, IdsOf(kids[1..]));
    }
  }

  lemma {:induction false} PackIds(kids: seq<Branch>, column: nat, depth: nat, c0: real, c1: real, s: Style, ext: Id -> real)
    requires column < 2 && AllLeaves(kids)
    ensures SpotsOf(PackLeaves(kids, column, depth, c0, c1, s, ext).spots, IdsOf(kids))
    decreases kids, 0
  {
    if kids != [] {
      var spot := PackSpot(kids[0].id, column, depth, c0, c1, s, ext);
      var h := ext(kids[0].id);
      assert kids[0] in kids && Ids(kids[0]) == [spot.id];
      PackFirst(kids, column, depth, c0, c1, s, ext);
      PackIds(kids[1..], Other(column), depth, Next0(c0, column, h), Next1(c1, column, h), s, ext);
      SpotOne(spot);
      SpotsJoin([spot], [spot.id], PackRest(kids[1..], spot.id, column, depth, c0, c1, s, ext).spots, IdsOf(kids[1..]));
    }
  }

  lemma {:induction false} RootsIds(roots: seq<Branch>, cursor: real, s: Style, ext: Id -> real)
    ensures SpotsOf(PlaceRoots(roots, cursor, s, ext).spots, IdsOf(roots))
    decreases roots, 0
  {
    if roots != [] {
      var b := Place(roots[0], 0, cursor, s, ext);
      RootsFirst(roots, cursor, s, ext);
      PlaceIds(roots[0], 0, cursor, s, ext);
      RootsIds(roots[1..], Past(b.end, GAP), s, ext);
      SpotsJoin(b.spots, Ids(roots[0]), PlaceRoots(roots[1..], Past(b.end, GAP), s, ext).spots, IdsOf(roots[1..]));
    }
  }

  function SectorIds(sectors: seq<RadialLayout.Sector>): seq<Id> {
    seq(|sectors|, i requires 0 <= i < |sectors| => sectors[i].node.id)
  }

  // The radial layout's sectors are the nodes' in the order of the forest.
  lemma {:induction false} SectorsIds(b: Branch, depth: nat, a0: real, a1: real)
    ensures SectorIds(RadialLayout.Sectors(b, depth, a0, a1)) == Ids(b)
    decreases b, 1
  {
    SectorsOf(b, depth, a0, a1);
    KidSectorsIds(b.kids, RadialLayout.NextRing(depth), a0, RadialLayout.Width(a0, a1), RadialLayout.Leaves(b));
  }

  lemma {:induction false} KidSectorsIds(kids: seq<Branch>, depth: nat, a: real, width: real, total: nat)
    requires total > 0
    ensures SectorIds(RadialLayout.KidSectors(kids, depth, a, width, total)) == IdsOf(kids)
    decreases kids, 0
  {
    if kids != [] {
      var end := Past(a, RadialLayout.Share(width, RadialLayout.Leaves(kids[0]), total));
      SectorsFirst(kids, depth, a, width, total);
      SectorsIds(kids[0], depth, a, end);
      KidSectorsIds(kids[1..], depth, end, width, total);
    }
  }

  lemma SameCount(a: seq<Id>, b: seq<Id>)
    requires multiset(a) == multiset(b) && Distinct(b)
    ensures Distinct(a)
    ensures forall x :: x in a <==> x in b
  {
    forall i, j | 0 <= i < j < |a| ensures a[i] != a[j] {
      AtMostOnce(b, a[i]);
      TwiceCounts(a, i, j);
    }
    forall x ensures x in a <==> x in b {
      assert x in multiset(a) <==> x in multiset(b);
    }
  }

  lemma TwiceCounts(s: seq<Id>, i: nat, j: nat)
    requires i < j < |s|
    ensures s[i] == s[j] ==> multiset(s)[s[i]] >= 2
  {
    assert s == s[..j] + s[j..] && s[i] in s[..j] && s[j] in s[j..];
    assert multiset(s)[s[i]] == multiset(s[..j])[s[i]] + multiset(s[j..])[s[i]];
  }

  lemma {:induction false} AtMostOnce(s: seq<Id>, x: Id)
    requires Distinct(s)
    ensures multiset(s)[x] <= 1
  {
    if s != [] {
      AtMostOnce(s[1..], x);
      assert s == [s[0]] + s[1..];
      assert s[0] !in s[1..];
    }
  }

  // ---------------------------------------------------------------- the marks

  // Every mark is on a node of its own, and those are the nodes a walk down the
  // tree reaches.
  ghost predicate OneEach(t: Tree, marks: seq<Mark>) {
    Distinct(MarkIds(marks)) && forall id :: id in MarkIds(marks) <==> Reached(t, [], id)
  }

  lemma {:induction false} PutsKeys(pos: map<Id, Point>, marks: seq<Mark>)
    ensures forall id :: id in Puts(pos, marks) <==> id in pos || id in MarkIds(marks)
    ensures forall id | id in pos && id !in MarkIds(marks) :: Puts(pos, marks)[id] == pos[id]
    decreases |marks|
  {
    if marks != [] {
      PutsKeys(pos[marks[0].id := marks[0].at], marks[1..]);
      assert MarkIds(marks) == [marks[0].id] + MarkIds(marks[1..]);
    }
  }

  // With one mark a node, each keeps the position its mark gave it.
  lemma {:induction false} PutsStay(pos: map<Id, Point>, marks: seq<Mark>, k: nat)
    requires Distinct(MarkIds(marks)) && k < |marks|
    ensures marks[k].id in Puts(pos, marks) && Puts(pos, marks)[marks[k].id] == marks[k].at
    decreases |marks|
  {
    var pos' := pos[marks[0].id := marks[0].at];
    assert MarkIds(marks) == [marks[0].id] + MarkIds(marks[1..]);
    DistinctTail(MarkIds(marks));
    PutsKeys(pos', marks[1..]);
    if k > 0 { PutsStay(pos', marks[1..], k - 1); }
  }

  lemma DistinctTail(s: seq<Id>)
    requires s != [] && Distinct(s)
    ensures Distinct(s[1..]) && s[0] !in s[1..]
  {
  }

  lemma TidyOneEach(t: Tree, s: Style, ext: Id -> real, marks: seq<Mark>)
    requires Ready(t) && marks == TidyMarks(s, PlaceRoots(Forest(t, [], 0), 0.0, s, ext).spots)
    ensures OneEach(t, marks)
  {
    var spots := PlaceRoots(Forest(t, [], 0), 0.0, s, ext).spots;
    RootsHold(t);
    RootsIds(Forest(t, [], 0), 0.0, s, ext);
    assert MarkIds(marks) == SpotIds(spots);
    SameCount(SpotIds(spots), IdsOf(Forest(t, [], 0)));
  }

  lemma RadialOneEach(t: Tree, p: Polar, width: real, total: nat, marks: seq<Mark>)
    requires Ready(t) && total > 0
    requires marks == RadialMarks(p, RadialLayout.KidSectors(Forest(t, [], 0), 0, 0.0, width, total))
    ensures OneEach(t, marks)
  {
    RootsHold(t);
    KidSectorsIds(Forest(t, [], 0), 0, 0.0, width, total);
    assert MarkIds(marks) == IdsOf(Forest(t, [], 0));
  }

  // ------------------------------------------------------------------- layouts

  datatype Layout = Lanes | Columns | Topdown | Radial

  // What the canvas measures: box sizes, and the circle functions.
  datatype Screen = Screen(width: Id -> real, height: Id -> real, circle: real, cos: real -> real, sin: real -> real)

  function StyleOf(layout: Layout): Style
    requires layout != Radial
  {
    match layout
    case Lanes => LANES
    case Columns => COLUMNS
    case Topdown => TOPDOWN
  }

  function Extent(screen: Screen, s: Style): Id -> real {
    (id: Id) => (if s.vertical then screen.width(id) else screen.height(id)) + GAP
  }

  function RadialPoint(screen: Screen, step: real, shift: nat): Polar {
    (depth: nat, a0: real, a1: real) =>
      var angle, r := (a0 + a1) / 2.0, (depth + shift) as real * step;
      Point(r * screen.cos(angle), r * screen.sin(angle))
  }

  // What a layout puts where.
  ghost function LayoutMarks(t: Tree, layout: Layout, screen: Screen): seq<Mark>
    requires Ready(t) && screen.circle > 0.0
  {
    var roots := Forest(t, [], 0);
    if layout == Radial then
      RadialMarks(RadialPoint(screen, RadialLayout.RingStep(roots, screen.circle), RadialLayout.DepthShift(roots)),
                  RadialLayout.RootSectors(roots, screen.circle))
    else
      var s := StyleOf(layout);
      TidyMarks(s, PlaceRoots(roots, 0.0, s, Extent(screen, s)).spots)
  }

  lemma LayoutOneEach(t: Tree, layout: Layout, screen: Screen)
    requires Ready(t) && screen.circle > 0.0
    ensures OneEach(t, LayoutMarks(t, layout, screen))
  {
    var roots := Forest(t, [], 0);
    if layout != Radial {
      var s := StyleOf(layout);
      TidyOneEach(t, s, Extent(screen, s), LayoutMarks(t, layout, screen));
    } else if roots == [] {
      RootsHold(t);
    } else {
      RadialOneEach(t, RadialPoint(screen, RadialLayout.RingStep(roots, screen.circle), RadialLayout.DepthShift(roots)),
                    screen.circle, RadialLayout.LeavesOf(roots), LayoutMarks(t, layout, screen));
    }
  }

  // On the tree of any graph: a node's sector lies inside that of each node above
  // it, and where neither of two nodes is above the other they are disjoint.
  lemma RadialNests(t: Tree, circle: real, i: nat, j: nat)
    requires Ready(t) && circle > 0.0 && t.roots != []
    requires var s := RadialLayout.RootSectors(Forest(t, [], 0), circle); i < |s| && j < |s| && i != j
    ensures var s := RadialLayout.RootSectors(Forest(t, [], 0), circle);
            && (RadialLayout.Below(s[j].node, s[i].node) ==> RadialLayout.Inside(s[j], s[i]))
            && (!RadialLayout.Below(s[j].node, s[i].node) && !RadialLayout.Below(s[i].node, s[j].node)
                ==> RadialLayout.Disjoint(s[i], s[j]))
  {
    var roots := Forest(t, [], 0);
    SectorsOnce(t, circle, RadialLayout.LeavesOf(roots), RadialLayout.RootSectors(roots, circle));
    RadialLayout.SectorsNest(roots, circle, i, j);
  }

  lemma SectorsOnce(t: Tree, width: real, total: nat, s: seq<RadialLayout.Sector>)
    requires Ready(t) && total > 0 && s == RadialLayout.KidSectors(Forest(t, [], 0), 0, 0.0, width, total)
    ensures forall k, l | 0 <= k < l < |s| :: s[k].node.id != s[l].node.id
  {
    RootsHold(t);
    KidSectorsIds(Forest(t, [], 0), 0, 0.0, width, total);
    forall k, l | 0 <= k < l < |s| ensures s[k].node.id != s[l].node.id {
      assert SectorIds(s)[k] != SectorIds(s)[l];
    }
  }

  method RadialPositions(t: Tree, screen: Screen) returns (pos: map<Id, Point>)
    requires Ready(t) && screen.circle > 0.0
    ensures pos == Puts(map[], LayoutMarks(t, Radial, screen))
  {
    var countLeaves := new LeafCount(t);
    var step, totalLeaves := MeasureRings(t, screen.circle, countLeaves);
    ghost var roots := Forest(t, [], 0);
    if t.roots == [] { return map[]; }
    var radial := new LayoutCanvas.Radial(t, RadialPoint(screen, step, if |t.roots| > 1 then 1 else 0), countLeaves);
    radial.PlaceKids(t.roots, 0, 0.0, screen.circle, totalLeaves, [], RadialLayout.RootSectors(roots, screen.circle));
    pos := radial.pos;
  }

  method MeasureRings(t: Tree, circle: real, countLeaves: LeafCount) returns (step: real, totalLeaves: nat)
    requires Ready(t) && circle > 0.0 && countLeaves.t == t && countLeaves.Valid()
    modifies countLeaves
    ensures countLeaves.Valid()
    ensures step == RadialLayout.RingStep(Forest(t, [], 0), circle)
    ensures totalLeaves == RadialLayout.LeavesOf(Forest(t, [], 0))
  {
    totalLeaves := countLeaves.Sum(t.roots, []);
    var maxDepth := MeasureDepth(t);
    step := RadialLayout.StepFor(totalLeaves as real, RadialLayout.Rim(circle, maxDepth));
  }

  method MeasureDepth(t: Tree) returns (maxDepth: nat)
    requires Ready(t)
    ensures maxDepth == RadialLayout.MaxDepth(Forest(t, [], 0))
  {
    var subtreeDepth := new SubtreeDepth(t);
    var deepest := subtreeDepth.Deepest(t.roots, []);
    maxDepth := if deepest <= 1 then 1 else deepest - 1;
  }

  method Positions(t: Tree, layout: Layout, screen: Screen) returns (pos: map<Id, Point>)
    requires Ready(t) && screen.circle > 0.0
    ensures pos == Puts(map[], LayoutMarks(t, layout, screen))
  {
    if layout == Radial {
      pos := RadialPositions(t, screen);
    } else {
      var s := StyleOf(layout);
      var tidy := new Tidy(t, s, Extent(screen, s));
      var _ := tidy.LayoutRoots();
      pos := tidy.pos;
    }
  }

  // ----------------------------------------------------------------- the stash

  // The lowest position used, 0 if there is none below that.
  ghost predicate IsMaxY(pos: map<Id, Point>, y: real) {
    && y >= 0.0
    && (forall id | id in pos :: pos[id].y <= y)
    && (y == 0.0 || exists id :: id in pos && pos[id].y == y)
  }

  method Any(ids: set<Id>) returns (id: Id)
    requires ids != {}
    ensures id in ids
  {
    ghost var any := Sets.SomeMember(ids);
    id :| id in ids;
  }

  method MaxY(pos: map<Id, Point>) returns (y: real)
    ensures IsMaxY(pos, y)
  {
    y := 0.0;
    var left := pos.Keys;
    while left != {}
      invariant left <= pos.Keys && y >= 0.0
      invariant forall id | id in pos && id !in left :: pos[id].y <= y
      invariant y == 0.0 || exists id :: id in pos && pos[id].y == y
      decreases |left|
    {
      var id := Any(left);
      y := Max(y, pos[id].y);
      left := left - {id};
    }
  }

  function Following(free: nat): nat { free + 1 }

  function StashPoint(free: nat, maxY: real): Point { Point(free as real * 220.0, maxY + 100.0) }

  // The row of the nodes that have no position, `free` of its places taken.
  function StashMarks(all: seq<Id>, placed: map<Id, Point>, free: nat, maxY: real): seq<Mark> {
    if all == [] then []
    else if all[0] in placed then StashMarks(all[1..], placed, free, maxY)
    else [Mark(all[0], StashPoint(free, maxY))] + StashMarks(all[1..], placed, Following(free), maxY)
  }

  // The positions of `was` and those of the first nodes, `rest` being what is left.
  ghost predicate StashedSoFar(placed: map<Id, Point>, pos: map<Id, Point>, row: seq<Mark>, done: seq<Mark>,
                               rest: seq<Mark>) {
    row == done + rest && pos == Puts(placed, done)
  }

  lemma StashStep(placed: map<Id, Point>, pos: map<Id, Point>, row: seq<Mark>, done: seq<Mark>, m: Mark, rest: seq<Mark>)
    requires StashedSoFar(placed, pos, row, done, [m] + rest)
    ensures StashedSoFar(placed, pos[m.id := m.at], row, done + [m], rest)
  {
    assert done + ([m] + rest) == done + [m] + rest;
    PutsAppend(placed, done, [m]);
    PutsOne(pos, m);
  }

  method Stash(all: seq<Id>, placed: map<Id, Point>, maxY: real) returns (pos: map<Id, Point>)
    requires Distinct(all)
    ensures pos == Puts(placed, StashMarks(all, placed, 0, maxY))
  {
    pos := placed;
    var free := 0;
    ghost var row, left, done: seq<Mark> := StashMarks(all, placed, 0, maxY), all, [];
    assert row == done + row;
    for k := 0 to |all|
      invariant left == all[k..] && StashedSoFar(placed, pos, row, done, StashMarks(left, placed, free, maxY))
      invariant forall id :: id in pos <==> id in placed || id in MarkIds(done)
      invariant forall id | id in MarkIds(done) :: id in all[..k]
    {
      assert all[k] == left[0] && left[1..] == all[k + 1..];
      NotYetStashed(all, k);
      if all[k] !in pos {
        ghost var m := Mark(all[k], StashPoint(free, maxY));
        StashStep(placed, pos, row, done, m, StashMarks(left[1..], placed, Following(free), maxY));
        assert MarkIds(done + [m]) == MarkIds(done) + [m.id];
        pos := pos[all[k] := StashPoint(free, maxY)];
        done := done + [m];
        free := Following(free);
      }
      left := left[1..];
    }
    assert done + [] == done;
  }

  lemma NotYetStashed(all: seq<Id>, k: nat)
    requires Distinct(all) && k < |all|
    ensures all[k] !in all[..k] && all[..k + 1] == all[..k] + [all[k]]
  {
  }

  // The row holds each node without a position once, 220 apart from left to right,
  // all of it 100 below `maxY`.
  ghost predicate IsRow(row: seq<Mark>, free: nat, maxY: real) {
    forall i | 0 <= i < |row| :: row[i].at.y == maxY + 100.0 && row[i].at.x == (free + i) as real * 220.0
  }

  lemma {:induction false} StashIsRow(all: seq<Id>, placed: map<Id, Point>, free: nat, maxY: real)
    ensures IsRow(StashMarks(all, placed, free, maxY), free, maxY)
  {
    if all != [] {
      StashIsRow(all[1..], placed, if all[0] in placed then free else Following(free), maxY);
      if all[0] !in placed { RowStep(all[0], StashMarks(all[1..], placed, Following(free), maxY), free, maxY); }
    }
  }

  lemma RowStep(id: Id, rest: seq<Mark>, free: nat, maxY: real)
    requires IsRow(rest, Following(free), maxY)
    ensures IsRow([Mark(id, StashPoint(free, maxY))] + rest, free, maxY)
  {
    var row := [Mark(id, StashPoint(free, maxY))] + rest;
    assert forall i | 0 < i < |row| :: row[i] == rest[i - 1];
  }

  // Exactly the nodes without a position.
  lemma {:induction false} StashIds(all: seq<Id>, placed: map<Id, Point>, free: nat, maxY: real)
    requires Distinct(all)
    ensures var ids := MarkIds(StashMarks(all, placed, free, maxY));
            Distinct(ids) && forall id :: id in ids <==> id in all && id !in placed
  {
    if all != [] {
      DistinctTail(all);
      if all[0] in placed {
        StashIds(all[1..], placed, free, maxY);
      } else {
        var rest := StashMarks(all[1..], placed, Following(free), maxY);
        StashIds(all[1..], placed, Following(free), maxY);
        DistinctJoin([all[0]], MarkIds(rest));
        assert MarkIds([Mark(all[0], StashPoint(free, maxY))] + rest) == [all[0]] + MarkIds(rest);
      }
    }
  }

  // ----------------------------------------------------------------- the whole

  // The order the layout is given the nodes in, hidden ones left out.
  function Visible(all: seq<Id>, hidden: set<Id>): (ids: seq<Id>)
    ensures forall id :: id in ids <==> id in all && id !in hidden
  {
    if all == [] then []
    else (if all[0] in hidden then [] else [all[0]]) + Visible(all[1..], hidden)
  }

  lemma {:induction false} VisibleDistinct(all: seq<Id>, hidden: set<Id>)
    requires Distinct(all)
    ensures Distinct(Visible(all, hidden))
  {
    if all != [] {
      DistinctTail(all);
      VisibleDistinct(all[1..], hidden);
      if all[0] !in hidden { DistinctJoin([all[0]], Visible(all[1..], hidden)); }
    }
  }

  // What a whole layout comes to: the marks of the nodes reached, then a row of the
  // others, every node marked exactly once and standing where its mark is.
  ghost predicate LaidOut(all: seq<Id>, marks: seq<Mark>, row: seq<Mark>, maxY: real, pos: map<Id, Point>) {
    && Distinct(MarkIds(marks + row))
    && (forall id :: id in MarkIds(marks + row) <==> id in all)
    && (forall id :: id in pos <==> id in all)
    && (forall m | m in marks + row :: m.id in pos && pos[m.id] == m.at)
    && (forall m | m in marks :: m.at.y <= maxY)
    && IsRow(row, 0, maxY)
  }

  method LayoutHierarchy(all: seq<Id>, hidden: set<Id>, edges: seq<GraphEdge>, layout: Layout, screen: Screen)
    returns (pos: map<Id, Point>, ghost g: Parents, ghost t: Tree, ghost row: seq<Mark>, ghost maxY: real)
    requires Distinct(all) && screen.circle > 0.0
    ensures |all| <= 1 ==> pos == map[]
    ensures |all| > 1 ==> t.ids == Visible(all, hidden) && Ready(t)
    ensures |all| > 1 ==> forall from, to ::
      Edge(g, from, to) <==> from in t.ids && to in t.ids && GraphEdge(from, to) in edges
    ensures |all| > 1 ==> OneEach(t, LayoutMarks(t, layout, screen))
    ensures |all| > 1 ==> LaidOut(all, LayoutMarks(t, layout, screen), row, maxY, pos)
    ensures |all| > 1 && Acyclic(g) ==> forall id | id in t.ids :: Reached(t, [], id)
  {
    if |all| <= 1 {
      return map[], map[], Tree([], map[], []), [], 0.0;
    }
    var visible := Visible(all, hidden);
    VisibleDistinct(all, hidden);
    var tree;
    ghost var depth;
    tree, g, depth := BuildTree(visible, edges);
    t := tree;
    TreeIsReady(g, depth, t);
    var placed := Positions(tree, layout, screen);
    var y := MaxY(placed);
    maxY := y;
    pos := Stash(all, placed, y);
    row := StashMarks(all, placed, 0, maxY);
    LayoutOneEach(t, layout, screen);
    Everywhere(all, g, depth, t, LayoutMarks(t, layout, screen), row, maxY, placed, pos);
    if Acyclic(g) { AllReached(g, depth, t); }
  }

  lemma AllReached(g: Parents, depth: map<Id, nat>, t: Tree)
    requires TreeOf(g, depth, t) && AllDepths(g, depth)
    ensures forall id | id in t.ids :: Reached(t, [], id)
  {
    forall id | id in t.ids ensures Reached(t, [], id) {
      var w := SpanningForest(g, depth, t, id);
      assert TreeWalkTo(t, w, id) && [] <= w;
    }
  }

  lemma Everywhere(all: seq<Id>, g: Parents, depth: map<Id, nat>, t: Tree, marks: seq<Mark>, row: seq<Mark>,
                   maxY: real, placed: map<Id, Point>, pos: map<Id, Point>)
    requires Distinct(all) && TreeOf(g, depth, t) && (forall id | id in t.ids :: id in all)
    requires OneEach(t, marks) && placed == Puts(map[], marks) && IsMaxY(placed, maxY)
    requires row == StashMarks(all, placed, 0, maxY) && pos == Puts(placed, row)
    ensures LaidOut(all, marks, row, maxY, pos)
  {
    forall id | id in MarkIds(marks) ensures id in all { ReachedIsNode(g, depth, t, id); }
    AllMarked(all, marks, row, maxY, placed);
    PutsAppend(map[], marks, row);
    PutsKeys(map[], marks + row);
    AllStay(marks + row, pos);
    AllStay(marks, placed);
    StashIsRow(all, placed, 0, maxY);
  }

  lemma AllMarked(all: seq<Id>, marks: seq<Mark>, row: seq<Mark>, maxY: real, placed: map<Id, Point>)
    requires Distinct(all) && Distinct(MarkIds(marks)) && (forall id | id in MarkIds(marks) :: id in all)
    requires placed == Puts(map[], marks) && row == StashMarks(all, placed, 0, maxY)
    ensures Distinct(MarkIds(marks + row))
    ensures forall id :: id in MarkIds(marks + row) <==> id in all
  {
    PutsKeys(map[], marks);
    StashIds(all, placed, 0, maxY);
    DistinctJoin(MarkIds(marks), MarkIds(row));
    assert MarkIds(marks + row) == MarkIds(marks) + MarkIds(row);
  }

  lemma AllStay(marks: seq<Mark>, pos: map<Id, Point>)
    requires Distinct(MarkIds(marks)) && pos == Puts(map[], marks)
    ensures forall m | m in marks :: m.id in pos && pos[m.id] == m.at
  {
    forall m | m in marks ensures m.id in pos && pos[m.id] == m.at {
      var k :| 0 <= k < |marks| && marks[k] == m;
      PutsStay(map[], marks, k);
    }
  }

  lemma ReachedIsNode(g: Parents, depth: map<Id, nat>, t: Tree, id: Id)
    requires TreeOf(g, depth, t) && Reached(t, [], id)
    ensures id in t.ids
  {
    var w :| TreeWalkTo(t, w, id);
    LastHangs(g, depth, t, w);
  }
}
