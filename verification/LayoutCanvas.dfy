// The layouts as they run (ui-assets/topology.js, tidyLayout and radialLayout):
// recursions over the built tree that fill in a map of positions as they go.
// Each ends on every graph and places exactly the spots of the forest.
module LayoutCanvas {
  import opened Graph
  import opened LayoutTree
  import opened TidyLayout
  import opened TreeForest
  import opened LayoutMemo
  import opened RadialLayout

  datatype Point = Point(x: real, y: real)

  datatype Mark = Mark(id: Id, at: Point)

  // The positions after each of `marks` is set in turn.
  function Puts(pos: map<Id, Point>, marks: seq<Mark>): map<Id, Point>
    decreases |marks|
  {
    if marks == [] then pos else Puts(pos[marks[0].id := marks[0].at], marks[1..])
  }

  lemma {:induction false} PutsAppend(pos: map<Id, Point>, a: seq<Mark>, b: seq<Mark>)
    ensures Puts(pos, a + b) == Puts(Puts(pos, a), b)
    decreases |a|
  {
    if a == [] {
      assert a + b == b;
    } else {
      assert (a + b)[1..] == a[1..] + b && (a + b)[0] == a[0];
      PutsAppend(pos[a[0].id := a[0].at], a[1..], b);
    }
  }

  lemma PutsOne(pos: map<Id, Point>, m: Mark)
    ensures Puts(pos, [m]) == pos[m.id := m.at]
  {
    assert [m][1..] == [];
  }

  function PointOf(s: Style, spot: Spot): Point {
    if s.vertical then Point(spot.main, spot.across) else Point(spot.across, spot.main)
  }

  function TidyMarks(s: Style, spots: seq<Spot>): seq<Mark> {
    seq(|spots|, i requires 0 <= i < |spots| => Mark(spots[i].id, PointOf(s, spots[i])))
  }

  lemma TidyMarksAppend(pos: map<Id, Point>, s: Style, a: seq<Spot>, b: seq<Spot>)
    ensures Puts(pos, TidyMarks(s, a + b)) == Puts(Puts(pos, TidyMarks(s, a)), TidyMarks(s, b))
  {
    assert TidyMarks(s, a + b) == TidyMarks(s, a) + TidyMarks(s, b);
    PutsAppend(pos, TidyMarks(s, a), TidyMarks(s, b));
  }

  lemma TidyMarksOne(pos: map<Id, Point>, s: Style, spot: Spot)
    ensures Puts(pos, TidyMarks(s, [spot])) == pos[spot.id := PointOf(s, spot)]
  {
    assert TidyMarks(s, [spot]) == [Mark(spot.id, PointOf(s, spot))];
    PutsOne(pos, Mark(spot.id, PointOf(s, spot)));
  }

  // A row placed in part: what is done and what is left make it up.
  ghost predicate Joins(row: Row, centers: seq<real>, done: seq<Spot>, left: Row) {
    row == Row(left.end, centers + left.centers, done + left.spots)
  }

  lemma JoinsStep(row: Row, centers: seq<real>, done: seq<Spot>, left: Row, main: real, spots: seq<Spot>, rest: Row)
    requires Joins(row, centers, done, left)
    requires left == Row(rest.end, [main] + rest.centers, spots + rest.spots)
    ensures Joins(row, centers + [main], done + spots, rest)
  {
    assert centers + ([main] + rest.centers) == centers + [main] + rest.centers;
    assert done + (spots + rest.spots) == done + spots + rest.spots;
  }

  lemma JoinsNone(row: Row)
    ensures Joins(row, [], [], row)
  {
    assert [] + row.centers == row.centers && [] + row.spots == row.spots;
  }

  lemma JoinsAll(row: Row, centers: seq<real>, done: seq<Spot>, end: real)
    requires Joins(row, centers, done, Row(end, [], []))
    ensures row == Row(end, centers, done)
  {
  }

  lemma StackStep(t: Tree, w: seq<Id>, k: nat, depth: nat, from: real, s: Style, ext: Id -> real,
                  row: Row, centers: seq<real>, done: seq<Spot>)
    requires Ready(t) && Down(t, w) && k < |Next(t, w)| && TreeWalk(t, w + [Next(t, w)[k]])
    requires Joins(row, centers, done, PlaceStack(Forest(t, w, k), depth, from, s, ext))
    ensures var b := Place(Unfold(t, w + [Next(t, w)[k]]), depth, from, s, ext);
            Joins(row, centers + [b.main], done + b.spots, PlaceStack(Forest(t, w, k + 1), depth, b.end, s, ext))
  {
    var b := Place(Unfold(t, w + [Next(t, w)[k]]), depth, from, s, ext);
    ForestNext(t, w, k);
    JoinsStep(row, centers, done, PlaceStack(Forest(t, w, k), depth, from, s, ext), b.main, b.spots,
              PlaceStack(Forest(t, w, k + 1), depth, b.end, s, ext));
  }

  lemma RootsFirst(kids: seq<Branch>, from: real, s: Style, ext: Id -> real)
    requires kids != []
    ensures var b := Place(kids[0], 0, from, s, ext);
            var rest := PlaceRoots(kids[1..], Past(b.end, GAP), s, ext);
            PlaceRoots(kids, from, s, ext) == Row(rest.end, [b.main] + rest.centers, b.spots + rest.spots)
  {
  }

  lemma RootsStep(t: Tree, w: seq<Id>, k: nat, from: real, s: Style, ext: Id -> real,
                  row: Row, centers: seq<real>, done: seq<Spot>)
    requires Ready(t) && Down(t, w) && k < |Next(t, w)| && TreeWalk(t, w + [Next(t, w)[k]])
    requires Joins(row, centers, done, PlaceRoots(Forest(t, w, k), from, s, ext))
    ensures var b := Place(Unfold(t, w + [Next(t, w)[k]]), 0, from, s, ext);
            Joins(row, centers + [b.main], done + b.spots, PlaceRoots(Forest(t, w, k + 1), Past(b.end, GAP), s, ext))
  {
    var b := Place(Unfold(t, w + [Next(t, w)[k]]), 0, from, s, ext);
    ForestNext(t, w, k);
    RootsFirst(Forest(t, w, k), from, s, ext);
    JoinsStep(row, centers, done, PlaceRoots(Forest(t, w, k), from, s, ext), b.main, b.spots,
              PlaceRoots(Forest(t, w, k + 1), Past(b.end, GAP), s, ext));
  }

  lemma LaneStep(t: Tree, w: seq<Id>, k: nat, depth: nat, laneDepth: nat, c0: real, c1: real, s: Style, ext: Id -> real,
                 row: Row, centers: seq<real>, done: seq<Spot>)
    requires Ready(t) && Down(t, w) && k < |Next(t, w)| && TreeWalk(t, w + [Next(t, w)[k]])
    requires Joins(row, centers, done, PlaceLanes(Forest(t, w, k), depth, laneDepth, c0, c1, s, ext))
    ensures var first := c0 <= c1;
            var b := Place(Unfold(t, w + [Next(t, w)[k]]), if first then depth else depth + laneDepth,
                           if first then c0 else c1, s, ext);
            Joins(row, centers + [b.main], done + b.spots,
                  PlaceLanes(Forest(t, w, k + 1), depth, laneDepth, if first then b.end else c0,
                             if first then c1 else b.end, s, ext))
  {
    var first := c0 <= c1;
    var b := Place(Unfold(t, w + [Next(t, w)[k]]), if first then depth else depth + laneDepth,
                   if first then c0 else c1, s, ext);
    ForestNext(t, w, k);
    JoinsStep(row, centers, done, PlaceLanes(Forest(t, w, k), depth, laneDepth, c0, c1, s, ext), b.main, b.spots,
              PlaceLanes(Forest(t, w, k + 1), depth, laneDepth, if first then b.end else c0,
                         if first then c1 else b.end, s, ext));
  }

  // The leaves take the columns in turn.
  function Column(i: nat): nat { i % 2 }

  lemma ColumnsTurn(i: nat)
    ensures Column(i) < 2 && Column(i + 1) == Other(Column(i))
  {
  }

  // The first of a packed row, and what is left.
  function PackSpot(id: Id, column: nat, depth: nat, c0: real, c1: real, s: Style, ext: Id -> real): Spot {
    Spot(id, PackAcross(s, depth, column), Center(if column == 0 then c0 else c1, ext(id)))
  }

  function PackRest(kids: seq<Branch>, id: Id, column: nat, depth: nat, c0: real, c1: real, s: Style, ext: Id -> real): Row
    requires column < 2
  {
    PackLeaves(kids, Other(column), depth, Next0(c0, column, ext(id)), Next1(c1, column, ext(id)), s, ext)
  }

  lemma PackFirst(kids: seq<Branch>, column: nat, depth: nat, c0: real, c1: real, s: Style, ext: Id -> real)
    requires kids != [] && column < 2
    ensures var spot := PackSpot(kids[0].id, column, depth, c0, c1, s, ext);
            var rest := PackRest(kids[1..], kids[0].id, column, depth, c0, c1, s, ext);
            PackLeaves(kids, column, depth, c0, c1, s, ext)
              == Row(rest.end, [spot.main] + rest.centers, [spot] + rest.spots)
  {
  }

  lemma PackStep(t: Tree, w: seq<Id>, k: nat, column: nat, depth: nat, c0: real, c1: real, s: Style, ext: Id -> real,
                 row: Row, centers: seq<real>, done: seq<Spot>)
    requires Ready(t) && Down(t, w) && k < |Next(t, w)| && column < 2
    requires Joins(row, centers, done, PackLeaves(Forest(t, w, k), column, depth, c0, c1, s, ext))
    ensures var spot := PackSpot(Next(t, w)[k], column, depth, c0, c1, s, ext);
            Joins(row, centers + [spot.main], done + [spot],
                  PackRest(Forest(t, w, k + 1), Next(t, w)[k], column, depth, c0, c1, s, ext))
  {
    ForestNext(t, w, k);
    var id, kids := Next(t, w)[k], Forest(t, w, k);
    assert kids[0].id == id;
    PackFirst(kids, column, depth, c0, c1, s, ext);
    JoinsStep(row, centers, done, PackLeaves(kids, column, depth, c0, c1, s, ext),
              PackSpot(id, column, depth, c0, c1, s, ext).main, [PackSpot(id, column, depth, c0, c1, s, ext)],
              PackRest(kids[1..], id, column, depth, c0, c1, s, ext));
  }

  // The kids in two lanes, or one after the other.
  function PlaceOthers(kids: seq<Branch>, depth: nat, cursor: real, s: Style, ext: Id -> real): Row {
    if s.laneWrap && |kids| >= LANE_THRESHOLD then
      PlaceLanes(kids, depth, LaneDepth(MaxHeight(kids)), cursor, cursor, s, ext)
    else PlaceStack(kids, depth, cursor, s, ext)
  }

  lemma WhichKids(b: Branch, depth: nat, cursor: real, s: Style, ext: Id -> real)
    requires b.kids != []
    ensures PlaceKids(b, depth, cursor, s, ext) ==
      if s.leafPack && |b.kids| >= 4 && AllLeaves(b.kids) then
        PackLeaves(b.kids, 0, depth + 1, cursor, Center(cursor, ext(b.kids[0].id)), s, ext)
      else PlaceOthers(b.kids, depth + 1, cursor, s, ext)
  {
  }

  lemma PlaceIs(b: Branch, depth: nat, cursor: real, s: Style, ext: Id -> real)
    ensures var own, across := ext(b.id), Across(s, depth);
            Place(b, depth, cursor, s, ext) ==
              if b.kids == [] then
                Block(Past(cursor, own), Center(cursor, own), [Spot(b.id, across, Center(cursor, own))])
              else
                var row := PlaceKids(b, depth, cursor, s, ext);
                var main := (MinOf(row.centers) + MaxOf(row.centers)) / 2.0;
                Block(Max(row.end, Past(cursor, own)), main, row.spots + [Spot(b.id, across, main)])
  {
  }

  class Tidy {
    const t: Tree
    const s: Style
    const ext: Id -> real
    const subtreeDepth: SubtreeDepth
    var pos: map<Id, Point>

    constructor (t: Tree, s: Style, ext: Id -> real)
      requires Ready(t)
      ensures Valid() && fresh(subtreeDepth)
      ensures this.t == t && this.s == s && this.ext == ext && pos == map[]
    {
      this.t := t;
      this.s := s;
      this.ext := ext;
      subtreeDepth := new SubtreeDepth(t);
      pos := map[];
    }

    ghost predicate Valid()
      reads subtreeDepth
    {
      subtreeDepth.t == t && subtreeDepth.Valid()
    }

    // The spots of a row, set after what was there.
    ghost predicate Filled(was: map<Id, Point>, spots: seq<Spot>)
      reads this`pos
    {
      pos == Puts(was, TidyMarks(s, spots))
    }

    // A whole row, set after what was there.
    ghost predicate Laid(was: map<Id, Point>, row: Row, end: real, centers: seq<real>)
      reads this`pos
    {
      end == row.end && centers == row.centers && Filled(was, row.spots)
    }

    method Put(id: Id, across: real, main: real, ghost was: map<Id, Point>, ghost done: seq<Spot>)
      requires Filled(was, done)
      modifies `pos
      ensures Filled(was, done + [Spot(id, across, main)])
    {
      TidyMarksAppend(was, s, done, [Spot(id, across, main)]);
      TidyMarksOne(pos, s, Spot(id, across, main));
      pos := pos[id := if s.vertical then Point(main, across) else Point(across, main)];
    }

    method LayoutSubtree(id: Id, depth: nat, cursor: real, ghost w: seq<Id>, ghost block: Block)
      returns (end: real, main: real)
      requires Valid() && TreeWalkTo(t, w, id) && block == Place(Unfold(t, w), depth, cursor, s, ext)
      modifies `pos, subtreeDepth
      ensures Valid() && end == block.end && main == block.main && Filled(old(pos), block.spots)
      decreases |t.ids| - |w|, 1
    {
      var kids := t.children[id];
      var own := ext(id);
      var across := Across(s, depth);
      PlaceIs(Unfold(t, w), depth, cursor, s, ext);
      if kids == [] {
        main, end := Center(cursor, own), Past(cursor, own);
        LeafSpot(pos, Spot(id, across, main));
        Put(id, across, main, pos, []);
        return;
      }
      ghost var row := PlaceKids(Unfold(t, w), depth, cursor, s, ext);
      var centers;
      end, centers := LayoutKids(id, kids, depth, cursor, w, row);
      main := (MinOf(centers) + MaxOf(centers)) / 2.0;
      Put(id, across, main, old(pos), row.spots);
      end := Max(end, Past(cursor, own));
    }

    lemma LeafSpot(was: map<Id, Point>, spot: Spot)
      ensures Puts(was, TidyMarks(s, [])) == was
      ensures [] + [spot] == [spot]
    {
    }

    lemma NoneFilled(was: map<Id, Point>)
      ensures Puts(was, TidyMarks(s, [])) == was
    {
    }

    method LayoutKids(id: Id, kids: seq<Id>, depth: nat, cursor: real, ghost w: seq<Id>, ghost row: Row)
      returns (end: real, centers: seq<real>)
      requires Valid() && TreeWalkTo(t, w, id) && kids == t.children[id] && kids != []
      requires row == PlaceKids(Unfold(t, w), depth, cursor, s, ext)
      modifies `pos, subtreeDepth
      ensures Valid() && Laid(old(pos), row, end, centers)
      decreases |t.ids| - |w|, 0, 2
    {
      WhichKids(Unfold(t, w), depth, cursor, s, ext);
      var leavesOnly := LeavesOnly(kids, w);
      if s.leafPack && |kids| >= 4 && leavesOnly {
        ForestNext(t, w, 0);
        end, centers := PackKids(kids, depth + 1, cursor, w);
      } else {
        end, centers := LanesOrStack(kids, depth + 1, cursor, w);
      }
    }

    method LanesOrStack(kids: seq<Id>, depth: nat, cursor: real, ghost w: seq<Id>)
      returns (end: real, centers: seq<real>)
      requires Valid() && TreeWalk(t, w) && kids == Next(t, w)
      modifies `pos, subtreeDepth
      ensures Valid() && Laid(old(pos), PlaceOthers(Forest(t, w, 0), depth, cursor, s, ext), end, centers)
      decreases |t.ids| - |w|, 0, 1
    {
      if s.laneWrap && |kids| >= LANE_THRESHOLD {
        var deepest := subtreeDepth.Deepest(kids, w);
        end, centers := LaneKids(kids, depth, LaneDepth(deepest), cursor, w);
      } else {
        end, centers := StackKids(kids, depth, cursor, w);
      }
    }

    method LeavesOnly(kids: seq<Id>, ghost w: seq<Id>) returns (all: bool)
      requires Ready(t) && TreeWalk(t, w) && kids == Next(t, w)
      ensures all == AllLeaves(Unfold(t, w).kids)
    {
      LeavesAreChildless(t, w);
      all := forall k | k in kids :: k in t.children && t.children[k] == [];
    }

    method StackKids(kids: seq<Id>, depth: nat, cursor: real, ghost w: seq<Id>)
      returns (end: real, centers: seq<real>)
      requires Valid() && TreeWalk(t, w) && kids == Next(t, w)
      modifies `pos, subtreeDepth
      ensures Valid() && Laid(old(pos), PlaceStack(Forest(t, w, 0), depth, cursor, s, ext), end, centers)
      decreases |t.ids| - |w|, 0, 0
    {
      ghost var row := PlaceStack(Forest(t, w, 0), depth, cursor, s, ext);
      ghost var done: seq<Spot> := [];
      end, centers := cursor, [];
      JoinsNone(row);
      NoneFilled(pos);
      var k := 0;
      while k < |kids|
        invariant k <= |kids| && Valid() && Filled(old(pos), done)
        invariant Joins(row, centers, done, PlaceStack(Forest(t, w, k), depth, end, s, ext))
      {
        ghost var v := w + [kids[k]];
        StepDown(t, w, kids[k]);
        StackStep(t, w, k, depth, end, s, ext, row, centers, done);
        ghost var b := Place(Unfold(t, v), depth, end, s, ext);
        TidyMarksAppend(old(pos), s, done, b.spots);
        var main;
        end, main := LayoutSubtree(kids[k], depth, end, v, b);
        centers := centers + [main];
        done := done + b.spots;
        k := k + 1;
      }
      JoinsAll(row, centers, done, end);
    }

    method LaneKids(kids: seq<Id>, depth: nat, laneDepth: nat, cursor: real, ghost w: seq<Id>)
      returns (end: real, centers: seq<real>)
      requires Valid() && TreeWalk(t, w) && kids == Next(t, w)
      modifies `pos, subtreeDepth
      ensures Valid() && Laid(old(pos), PlaceLanes(Forest(t, w, 0), depth, laneDepth, cursor, cursor, s, ext), end, centers)
      decreases |t.ids| - |w|, 0, 0
    {
      ghost var row := PlaceLanes(Forest(t, w, 0), depth, laneDepth, cursor, cursor, s, ext);
      ghost var done: seq<Spot> := [];
      centers := [];
      var c0, c1 := cursor, cursor;
      JoinsNone(row);
      NoneFilled(pos);
      var k := 0;
      while k < |kids|
        invariant k <= |kids| && Valid() && Filled(old(pos), done)
        invariant Joins(row, centers, done, PlaceLanes(Forest(t, w, k), depth, laneDepth, c0, c1, s, ext))
      {
        var first := c0 <= c1;
        var d: nat, from := (if first then depth else depth + laneDepth), (if first then c0 else c1);
        ghost var v := w + [kids[k]];
        StepDown(t, w, kids[k]);
        LaneStep(t, w, k, depth, laneDepth, c0, c1, s, ext, row, centers, done);
        ghost var b := Place(Unfold(t, v), d, from, s, ext);
        TidyMarksAppend(old(pos), s, done, b.spots);
        var laidEnd, main := LayoutSubtree(kids[k], d, from, v, b);
        c0, c1 := (if first then laidEnd else c0), (if first then c1 else laidEnd);
        centers := centers + [main];
        done := done + b.spots;
        k := k + 1;
      }
      end := Max(c0, c1);
      JoinsAll(row, centers, done, end);
    }

    // Two staggered columns of leaves; nothing hangs below them.
    method PackKids(kids: seq<Id>, depth: nat, cursor: real, ghost w: seq<Id>)
      returns (end: real, centers: seq<real>)
      requires Valid() && TreeWalk(t, w) && kids == Next(t, w) && kids != []
      modifies `pos
      ensures Valid() && Laid(old(pos), PackLeaves(Forest(t, w, 0), 0, depth, cursor, Center(cursor, ext(kids[0])), s, ext), end, centers)
    {
      var c0, c1 := cursor, Center(cursor, ext(kids[0]));
      ghost var row := PackLeaves(Forest(t, w, 0), 0, depth, c0, c1, s, ext);
      ghost var done: seq<Spot> := [];
      centers := [];
      JoinsNone(row);
      NoneFilled(pos);
      var i := 0;
      while i < |kids|
        invariant i <= |kids| && Valid() && Filled(old(pos), done)
        invariant Joins(row, centers, done, PackLeaves(Forest(t, w, i), Column(i), depth, c0, c1, s, ext))
      {
        var column := Column(i);
        var h := ext(kids[i]);
        var main := Center(if column == 0 then c0 else c1, h);
        PackStep(t, w, i, column, depth, c0, c1, s, ext, row, centers, done);
        Put(kids[i], PackAcross(s, depth, column), main, old(pos), done);
        done := done + [PackSpot(kids[i], column, depth, c0, c1, s, ext)];
        c0, c1 := Next0(c0, column, h), Next1(c1, column, h);
        centers := centers + [main];
        ColumnsTurn(i);
        i := i + 1;
      }
      end := Max(c0, c1);
      JoinsAll(row, centers, done, end);
    }

    method LayoutRoots() returns (end: real)
      requires Valid() && pos == map[]
      modifies `pos, subtreeDepth
      ensures Valid() && end == PlaceRoots(Forest(t, [], 0), 0.0, s, ext).end
      ensures Filled(map[], PlaceRoots(Forest(t, [], 0), 0.0, s, ext).spots)
    {
      ghost var w: seq<Id> := [];
      ghost var row := PlaceRoots(Forest(t, w, 0), 0.0, s, ext);
      ghost var done: seq<Spot>, mains: seq<real> := [], [];
      end := 0.0;
      JoinsNone(row);
      NoneFilled(pos);
      var k := 0;
      while k < |t.roots|
        invariant k <= |t.roots| && Valid() && Filled(map[], done)
        invariant Joins(row, mains, done, PlaceRoots(Forest(t, w, k), end, s, ext))
      {
        ghost var v := w + [t.roots[k]];
        StepDown(t, w, t.roots[k]);
        RootsStep(t, w, k, end, s, ext, row, mains, done);
        ghost var b := Place(Unfold(t, v), 0, end, s, ext);
        TidyMarksAppend(map[], s, done, b.spots);
        var main;
        end, main := LayoutSubtree(t.roots[k], 0, end, v, b);
        end := Past(end, GAP);
        mains := mains + [main];
        done := done + b.spots;
        k := k + 1;
      }
      JoinsAll(row, mains, done, end);
    }
  }

  // A node without children is a leaf of the forest.
  lemma LeavesAreChildless(t: Tree, w: seq<Id>)
    requires Ready(t) && TreeWalk(t, w)
    ensures AllLeaves(Unfold(t, w).kids) <==>
            forall k | k in Next(t, w) :: k in t.children && t.children[k] == []
  {
    LeavesFrom(t, w, 0);
    var next := Next(t, w);
    if k :| k in next && !(k in t.children && t.children[k] == []) {
      var j :| 0 <= j < |next| && next[j] == k;
    }
  }

  // From the `k`th child on.
  ghost predicate Childless(t: Tree, w: seq<Id>, k: nat)
    requires Ready(t) && Down(t, w) && k <= |Next(t, w)|
  {
    forall j | k <= j < |Next(t, w)| :: Next(t, w)[j] in t.children && t.children[Next(t, w)[j]] == []
  }

  lemma ChildlessFirst(t: Tree, w: seq<Id>, k: nat)
    requires Ready(t) && Down(t, w) && k < |Next(t, w)|
    ensures Childless(t, w, k) <==>
            Next(t, w)[k] in t.children && t.children[Next(t, w)[k]] == [] && Childless(t, w, k + 1)
  {
  }

  lemma {:induction false} LeavesFrom(t: Tree, w: seq<Id>, k: nat)
    requires Ready(t) && Down(t, w) && k <= |Next(t, w)|
    ensures AllLeaves(Forest(t, w, k)) <==> Childless(t, w, k)
    decreases |Next(t, w)| - k
  {
    if k < |Next(t, w)| {
      var c := Next(t, w)[k];
      ForestNext(t, w, k);
      LeafOf(t, w + [c], c);
      LeavesFrom(t, w, k + 1);
      ChildlessFirst(t, w, k);
      AllLeavesFirst(Forest(t, w, k));
    }
  }

  lemma LeafOf(t: Tree, v: seq<Id>, id: Id)
    requires Ready(t) && TreeWalkTo(t, v, id)
    ensures id in t.children
    ensures Unfold(t, v).kids == [] <==> t.children[id] == []
  {
    assert |Forest(t, v, 0)| == |Next(t, v)|;
  }

  lemma AllLeavesFirst(kids: seq<Branch>)
    requires kids != []
    ensures AllLeaves(kids) <==> kids[0].kids == [] && AllLeaves(kids[1..])
  {
    if kids[0].kids == [] && AllLeaves(kids[1..]) {
      forall k | k in kids ensures k.kids == [] {
        assert k == kids[0] || k in kids[1..];
      }
    }
  }

  // ------------------------------------------------------------------- radial

  // Where the middle of a sector is, from its ring and its two angles.
  type Polar = (nat, real, real) -> Point

  function RadialMarks(p: Polar, sectors: seq<Sector>): seq<Mark> {
    seq(|sectors|, i requires 0 <= i < |sectors| =>
      Mark(sectors[i].node.id, p(sectors[i].depth, sectors[i].a0, sectors[i].a1)))
  }

  lemma RadialMarksAppend(pos: map<Id, Point>, p: Polar, a: seq<Sector>, b: seq<Sector>)
    ensures Puts(pos, RadialMarks(p, a + b)) == Puts(Puts(pos, RadialMarks(p, a)), RadialMarks(p, b))
  {
    assert RadialMarks(p, a + b) == RadialMarks(p, a) + RadialMarks(p, b);
    PutsAppend(pos, RadialMarks(p, a), RadialMarks(p, b));
  }

  lemma RadialMarksOne(pos: map<Id, Point>, p: Polar, c: Sector)
    ensures Puts(pos, RadialMarks(p, [c])) == pos[c.node.id := p(c.depth, c.a0, c.a1)]
  {
    assert RadialMarks(p, [c]) == [Mark(c.node.id, p(c.depth, c.a0, c.a1))];
    PutsOne(pos, Mark(c.node.id, p(c.depth, c.a0, c.a1)));
  }

  // Sectors placed in part.
  lemma SectorsStep(t: Tree, w: seq<Id>, k: nat, depth: nat, a: real, width: real, total: nat,
                    all: seq<Sector>, done: seq<Sector>)
    requires Ready(t) && Down(t, w) && k < |Next(t, w)| && TreeWalk(t, w + [Next(t, w)[k]]) && total > 0
    requires all == done + KidSectors(Forest(t, w, k), depth, a, width, total)
    ensures var b := Unfold(t, w + [Next(t, w)[k]]);
            var end := Past(a, Share(width, Leaves(b), total));
            all == done + Sectors(b, depth, a, end) + KidSectors(Forest(t, w, k + 1), depth, end, width, total)
  {
    ForestNext(t, w, k);
    var b := Unfold(t, w + [Next(t, w)[k]]);
    var end := Past(a, Share(width, Leaves(b), total));
    SectorsFirst(Forest(t, w, k), depth, a, width, total);
    assert done + (Sectors(b, depth, a, end) + KidSectors(Forest(t, w, k + 1), depth, end, width, total))
        == done + Sectors(b, depth, a, end) + KidSectors(Forest(t, w, k + 1), depth, end, width, total);
  }

  lemma SectorsFirst(kids: seq<Branch>, depth: nat, a: real, width: real, total: nat)
    requires kids != [] && total > 0
    ensures var end := Past(a, Share(width, Leaves(kids[0]), total));
            KidSectors(kids, depth, a, width, total)
              == Sectors(kids[0], depth, a, end) + KidSectors(kids[1..], depth, end, width, total)
  {
  }

  lemma SectorsEnd(t: Tree, w: seq<Id>, depth: nat, a: real, width: real, total: nat,
                   all: seq<Sector>, done: seq<Sector>)
    requires Ready(t) && Down(t, w) && total > 0
    requires all == done + KidSectors(Forest(t, w, |Next(t, w)|), depth, a, width, total)
    ensures all == done
  {
    assert done + [] == done;
  }

  lemma SectorsOf(b: Branch, depth: nat, a0: real, a1: real)
    ensures Sectors(b, depth, a0, a1)
         == [Sector(b, depth, a0, a1)] + KidSectors(b.kids, NextRing(depth), a0, Width(a0, a1), Leaves(b))
  {
  }

  lemma SectorsBelow(t: Tree, w: seq<Id>, depth: nat, a0: real, a1: real, deeper: nat, width: real, leaves: nat,
                     all: seq<Sector>) returns (below: seq<Sector>)
    requires Ready(t) && TreeWalk(t, w) && leaves == Leaves(Unfold(t, w))
    requires all == Sectors(Unfold(t, w), depth, a0, a1) && deeper == NextRing(depth) && width == Width(a0, a1)
    ensures below == KidSectors(Forest(t, w, 0), deeper, a0, width, leaves)
    ensures all == [Sector(Unfold(t, w), depth, a0, a1)] + below
  {
    var b := Unfold(t, w);
    SectorsOf(b, depth, a0, a1);
    below := KidSectors(b.kids, deeper, a0, width, leaves);
  }

  class Radial {
    const t: Tree
    const p: Polar
    const countLeaves: LeafCount
    var pos: map<Id, Point>

    constructor (t: Tree, p: Polar, countLeaves: LeafCount)
      requires countLeaves.t == t && countLeaves.Valid()
      ensures Valid()
      ensures this.t == t && this.p == p && this.countLeaves == countLeaves && pos == map[]
    {
      this.t := t;
      this.p := p;
      this.countLeaves := countLeaves;
      pos := map[];
    }

    ghost predicate Valid()
      reads countLeaves
    {
      countLeaves.t == t && countLeaves.Valid()
    }

    ghost predicate Filled(was: map<Id, Point>, sectors: seq<Sector>)
      reads this`pos
    {
      pos == Puts(was, RadialMarks(p, sectors))
    }

    method PlaceNode(id: Id, depth: nat, a0: real, a1: real, ghost w: seq<Id>, ghost all: seq<Sector>)
      requires Valid() && TreeWalkTo(t, w, id) && all == Sectors(Unfold(t, w), depth, a0, a1)
      modifies `pos, countLeaves
      ensures Valid() && Filled(old(pos), all)
      decreases |t.ids| - |w|, 1, 0
    {
      ghost var was := pos;
      ghost var top := Sector(Unfold(t, w), depth, a0, a1);
      RadialMarksOne(pos, p, top);
      pos := pos[id := p(depth, a0, a1)];
      var leaves := countLeaves.Of(id, w);
      var deeper, width := NextRing(depth), Width(a0, a1);
      ghost var below := SectorsBelow(t, w, depth, a0, a1, deeper, width, leaves, all);
      RadialMarksAppend(was, p, [top], below);
      PlaceKids(t.children[id], deeper, a0, width, leaves, w, below);
    }

    // The sectors of the nodes a walk can go on to, from angle `a0`.
    method PlaceKids(kids: seq<Id>, depth: nat, a0: real, width: real, leaves: nat, ghost w: seq<Id>,
                     ghost all: seq<Sector>)
      requires Valid() && Down(t, w) && kids == Next(t, w) && leaves > 0
      requires all == KidSectors(Forest(t, w, 0), depth, a0, width, leaves)
      modifies `pos, countLeaves
      ensures Valid() && Filled(old(pos), all)
      decreases |t.ids| - |w|, 0, 1
    {
      ghost var done: seq<Sector> := [];
      var a := a0;
      var k := 0;
      while k < |kids|
        invariant k <= |kids| && Valid() && Filled(old(pos), done)
        invariant all == done + KidSectors(Forest(t, w, k), depth, a, width, leaves)
      {
        a, done := PlaceNext(kids, k, depth, a, width, leaves, w, all, done, old(pos));
        k := k + 1;
      }
      SectorsEnd(t, w, depth, a, width, leaves, all, done);
    }

    method PlaceNext(kids: seq<Id>, k: nat, depth: nat, a: real, width: real, leaves: nat, ghost w: seq<Id>,
                     ghost all: seq<Sector>, ghost done: seq<Sector>, ghost was: map<Id, Point>)
      returns (end: real, ghost done': seq<Sector>)
      requires Valid() && Down(t, w) && kids == Next(t, w) && leaves > 0 && k < |kids| && Filled(was, done)
      requires all == done + KidSectors(Forest(t, w, k), depth, a, width, leaves)
      modifies `pos, countLeaves
      ensures Valid() && Filled(was, done')
      ensures all == done' + KidSectors(Forest(t, w, k + 1), depth, end, width, leaves)
      decreases |t.ids| - |w|, 0, 0
    {
      ghost var v := w + [kids[k]];
      StepDown(t, w, kids[k]);
      SectorsStep(t, w, k, depth, a, width, leaves, all, done);
      var n := countLeaves.Of(kids[k], v);
      end := Past(a, Share(width, n, leaves));
      ghost var placed := Sectors(Unfold(t, v), depth, a, end);
      RadialMarksAppend(was, p, done, placed);
      PlaceNode(kids[k], depth, a, end, v, placed);
      done' := done + placed;
    }
  }
}
