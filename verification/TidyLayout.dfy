// The tidy block layout behind the lanes, columns and top-down views
// (ui-assets/topology.js, tidyLayout): what it makes of a tree, over exact
// reals. When each node's own box fits over its row of children, and no lanes are
// nested in lanes, blocks hold their boxes and no two boxes of one column overlap.
module TidyLayout {

  type Id = int

  // A node with the nodes that hang under it.
  datatype Branch = Branch(id: Id, kids: seq<Branch>)

  // Which of the layout's options are on.
  datatype Style = Style(laneWrap: bool, leafPack: bool, vertical: bool)

  const LANES := Style(true, true, false)
  const COLUMNS := Style(false, false, false)
  const TOPDOWN := Style(false, true, true)

  const GAP := 22.0
  const LANE_THRESHOLD := 8

  // Where a node's center goes: `across` on the depth axis, `main` on the axis
  // the blocks are stacked along.
  datatype Spot = Spot(id: Id, across: real, main: real)

  // A placed subtree: where its block ends, its own center, every spot in it.
  datatype Block = Block(end: real, main: real, spots: seq<Spot>)

  // A placed list of siblings.
  datatype Row = Row(end: real, centers: seq<real>, spots: seq<Spot>)

  function DepthSep(s: Style): real { if s.vertical then 150.0 else 260.0 }

  function LeafOffset(s: Style): real { if s.vertical then 65.0 else 130.0 }

  // The second of two packed leaf columns is moved over.
  function ColumnOffset(s: Style, column: nat): real { if column == 0 then 0.0 else LeafOffset(s) }

  function Across(s: Style, depth: nat): real { depth as real * DepthSep(s) }

  function PackAcross(s: Style, depth: nat, column: nat): real { Across(s, depth) + ColumnOffset(s, column) }

  // Past a box at `cursor`, and the middle of it.
  function Past(cursor: real, extent: real): real { cursor + extent }

  function Center(cursor: real, extent: real): real { cursor + extent / 2.0 }

  // The two packed columns' cursors after the next leaf, and whose turn is next.
  function Next0(c: real, column: nat, h: real): real { if column == 0 then c + h else c }

  function Next1(c: real, column: nat, h: real): real { if column == 0 then c else c + h }

  function Other(column: nat): nat { if column == 0 then 1 else 0 }

  // How many columns one lane takes.
  function LaneDepth(deepest: nat): nat { deepest + 1 }

  function Max(a: real, b: real): real { if a >= b then a else b }

  function Min(a: real, b: real): real { if a <= b then a else b }

  function MaxOf(xs: seq<real>): real
    requires xs != []
  {
    if |xs| == 1 then xs[0] else Max(xs[0], MaxOf(xs[1..]))
  }

  function MinOf(xs: seq<real>): real
    requires xs != []
  {
    if |xs| == 1 then xs[0] else Min(xs[0], MinOf(xs[1..]))
  }

  predicate AllLeaves(kids: seq<Branch>) {
    forall k | k in kids :: k.kids == []
  }

  // A leaf counts 1.
  function Height(b: Branch): (h: nat)
    ensures h >= 1
  {
    1 + MaxHeight(b.kids)
  }

  function MaxHeight(kids: seq<Branch>): nat {
    if kids == [] then 0
    else
      var h, rest := Height(kids[0]), MaxHeight(kids[1..]);
      if h >= rest then h else rest
  }

  // Whether a node's children go into lanes.
  predicate Wraps(b: Branch, s: Style) {
    s.laneWrap && |b.kids| >= LANE_THRESHOLD && !(s.leafPack && |b.kids| >= 4 && AllLeaves(b.kids))
  }

  // ------------------------------------------------------------------ placing

  function Place(b: Branch, depth: nat, cursor: real, s: Style, ext: Id -> real): Block
    decreases b, 1
  {
    var own := ext(b.id);
    if b.kids == [] then
      Block(Past(cursor, own), Center(cursor, own), [Spot(b.id, Across(s, depth), Center(cursor, own))])
    else
      var row := PlaceKids(b, depth, cursor, s, ext);
      var main := (MinOf(row.centers) + MaxOf(row.centers)) / 2.0;
      Block(Max(row.end, Past(cursor, own)), main, row.spots + [Spot(b.id, Across(s, depth), main)])
  }

  function PlaceKids(b: Branch, depth: nat, cursor: real, s: Style, ext: Id -> real): (row: Row)
    requires b.kids != []
    ensures |row.centers| == |b.kids|
    decreases b, 0
  {
    if s.leafPack && |b.kids| >= 4 && AllLeaves(b.kids) then
      PackLeaves(b.kids, 0, depth + 1, cursor, Center(cursor, ext(b.kids[0].id)), s, ext)
    else if s.laneWrap && |b.kids| >= LANE_THRESHOLD then
      PlaceLanes(b.kids, depth + 1, LaneDepth(MaxHeight(b.kids)), cursor, cursor, s, ext)
    else PlaceStack(b.kids, depth + 1, cursor, s, ext)
  }

  // One block after the other.
  function PlaceStack(kids: seq<Branch>, depth: nat, cursor: real, s: Style, ext: Id -> real): (row: Row)
    ensures |row.centers| == |kids|
    decreases kids, 0
  {
    if kids == [] then Row(cursor, [], [])
    else
      var b := Place(kids[0], depth, cursor, s, ext);
      var rest := PlaceStack(kids[1..], depth, b.end, s, ext);
      Row(rest.end, [b.main] + rest.centers, b.spots + rest.spots)
  }

  // Two staggered columns of leaves in turn, each with its own cursor.
  function PackLeaves(kids: seq<Branch>, column: nat, depth: nat, c0: real, c1: real, s: Style, ext: Id -> real): (row: Row)
    requires column < 2
    ensures |row.centers| == |kids|
  {
    if kids == [] then Row(Max(c0, c1), [], [])
    else
      var h := ext(kids[0].id);
      var main := Center(if column == 0 then c0 else c1, h);
      var rest := PackLeaves(kids[1..], Other(column), depth, Next0(c0, column, h), Next1(c1, column, h), s, ext);
      Row(rest.end, [main] + rest.centers,
          [Spot(kids[0].id, PackAcross(s, depth, column), main)] + rest.spots)
  }

  // Each subtree on the shorter of two lanes.
  function PlaceLanes(kids: seq<Branch>, depth: nat, laneDepth: nat, c0: real, c1: real, s: Style, ext: Id -> real): (row: Row)
    ensures |row.centers| == |kids|
    decreases kids, 0
  {
    if kids == [] then Row(Max(c0, c1), [], [])
    else
      var first := c0 <= c1;
      var b := Place(kids[0], if first then depth else depth + laneDepth, if first then c0 else c1, s, ext);
      var rest := if first then PlaceLanes(kids[1..], depth, laneDepth, b.end, c1, s, ext)
                  else PlaceLanes(kids[1..], depth, laneDepth, c0, b.end, s, ext);
      Row(rest.end, [b.main] + rest.centers, b.spots + rest.spots)
  }

  function PlaceRoots(roots: seq<Branch>, cursor: real, s: Style, ext: Id -> real): Row {
    if roots == [] then Row(cursor, [], [])
    else
      var b := Place(roots[0], 0, cursor, s, ext);
      var rest := PlaceRoots(roots[1..], Past(b.end, GAP), s, ext);
      Row(rest.end, [b.main] + rest.centers, b.spots + rest.spots)
  }

  // ------------------------------------------------------------------ geometry

  // Every extent is positive and no node's exceeds any of its children's.
  ghost predicate Grows(b: Branch, ext: Id -> real) {
    && ext(b.id) > 0.0
    && forall k | k in b.kids :: ext(b.id) <= ext(k.id) && Grows(k, ext)
  }

  ghost predicate InBlock(spots: seq<Spot>, from: real, to: real, ext: Id -> real) {
    forall i | 0 <= i < |spots| ::
      from <= spots[i].main - ext(spots[i].id) / 2.0 && spots[i].main + ext(spots[i].id) / 2.0 <= to
  }

  ghost predicate NoneAbove(spots: seq<Spot>, across: real) {
    forall i | 0 <= i < |spots| :: across <= spots[i].across
  }

  // Two boxes of one column do not overlap.
  ghost predicate Apart(a: Spot, b: Spot, ext: Id -> real) {
    a.across == b.across ==>
      || a.main + ext(a.id) / 2.0 <= b.main - ext(b.id) / 2.0
      || b.main + ext(b.id) / 2.0 <= a.main - ext(a.id) / 2.0
  }

  ghost predicate AllApart(spots: seq<Spot>, ext: Id -> real) {
    forall i, j | 0 <= i < j < |spots| :: Apart(spots[i], spots[j], ext)
  }

  lemma InBlockWiden(spots: seq<Spot>, from: real, to: real, from': real, to': real, ext: Id -> real)
    requires InBlock(spots, from, to, ext) && from' <= from && to <= to'
    ensures InBlock(spots, from', to', ext)
  {
  }

  // Two lists of spots side by side in disjoint stretches.
  lemma JoinBlocks(a: seq<Spot>, b: seq<Spot>, from: real, mid: real, to: real, ext: Id -> real)
    requires from <= mid <= to
    requires InBlock(a, from, mid, ext) && InBlock(b, mid, to, ext)
    requires AllApart(a, ext) && AllApart(b, ext)
    ensures InBlock(a + b, from, to, ext) && AllApart(a + b, ext)
  {
    var c := a + b;
    forall i, j | 0 <= i < j < |c| ensures Apart(c[i], c[j], ext) {
      if j < |a| {
        assert c[i] == a[i] && c[j] == a[j];
      } else if i >= |a| {
        assert c[i] == b[i - |a|] && c[j] == b[j - |a|];
      } else {
        assert c[i] == a[i] && c[j] == b[j - |a|];
      }
    }
  }

  // A spot that no other shares a column with.
  lemma JoinAlone(a: seq<Spot>, p: Spot, across: real, ext: Id -> real)
    requires AllApart(a, ext) && NoneAbove(a, across) && p.across < across
    ensures AllApart(a + [p], ext) && NoneAbove(a + [p], p.across)
  {
    var c := a + [p];
    forall i, j | 0 <= i < j < |c| ensures Apart(c[i], c[j], ext) {
      if j < |a| { assert c[i] == a[i] && c[j] == a[j]; } else { assert c[i] == a[i]; }
    }
  }

  ghost predicate Within(xs: seq<real>, lo: real, hi: real) {
    forall i | 0 <= i < |xs| :: lo <= xs[i] <= hi
  }

  lemma {:induction false} MinMaxWithin(xs: seq<real>, lo: real, hi: real)
    requires xs != [] && Within(xs, lo, hi)
    ensures lo <= MinOf(xs) <= MaxOf(xs) <= hi
  {
    if |xs| > 1 { MinMaxWithin(xs[1..], lo, hi); }
  }

  // A row fits: its spots in its stretch, apart, none above its column.
  ghost predicate RowFits(row: Row, from: real, across: real, ext: Id -> real) {
    && from <= row.end
    && InBlock(row.spots, from, row.end, ext)
    && AllApart(row.spots, ext)
    && NoneAbove(row.spots, across)
  }

  // A box `own` long around the block's center is inside the block.
  predicate BoxFits(b: Block, from: real, own: real) {
    from <= b.main - own / 2.0 && b.main + own / 2.0 <= b.end
  }

  // A block fits: likewise, with room for `own` around its center.
  ghost predicate BlockFits(b: Block, from: real, across: real, own: real, ext: Id -> real) {
    && from + own <= b.end
    && InBlock(b.spots, from, b.end, ext)
    && AllApart(b.spots, ext)
    && NoneAbove(b.spots, across)
    && BoxFits(b, from, own)
  }

  // Every extent is positive, and each node's box fits in the block that its row
  // of children, placed from 0, makes.
  predicate Roomy(b: Branch, s: Style, ext: Id -> real)
    decreases b, 1
  {
    ext(b.id) > 0.0 && BoxFits(Place(b, 0, 0.0, s, ext), 0.0, ext(b.id)) && AllRoomy(b.kids, s, ext)
  }

  predicate AllRoomy(kids: seq<Branch>, s: Style, ext: Id -> real)
    decreases kids, 0
  {
    kids != [] ==> Roomy(kids[0], s, ext) && AllRoomy(kids[1..], s, ext)
  }

  lemma {:induction false} EachRoomy(kids: seq<Branch>, s: Style, ext: Id -> real)
    requires AllRoomy(kids, s, ext)
    ensures forall k | k in kids :: Roomy(k, s, ext) && ext(k.id) > 0.0
  {
    if kids != [] { EachRoomy(kids[1..], s, ext); }
  }

  // No node of the branch wraps its children into lanes.
  predicate NoLanes(b: Branch, s: Style) { !Wraps(b, s) && forall k | k in b.kids :: NoLanes(k, s) }

  // Nor does any below one that does.
  predicate FlatLanes(b: Branch, s: Style) {
    && (Wraps(b, s) ==> forall k | k in b.kids :: NoLanes(k, s))
    && forall k | k in b.kids :: FlatLanes(k, s)
  }

  // ------------------------------------------------- a block moves with its cursor

  predicate MovedBlock(b: Block, was: Block, off: real) { b.end == was.end + off && b.main == was.main + off }

  ghost predicate MovedRow(row: Row, was: Row, off: real) {
    row.end == was.end + off && MovedAll(row.centers, was.centers, off)
  }

  ghost predicate MovedAll(xs: seq<real>, ys: seq<real>, off: real) {
    |xs| == |ys| && forall i | 0 <= i < |xs| :: xs[i] == ys[i] + off
  }

  lemma {:induction false} MinMaxMove(xs: seq<real>, ys: seq<real>, off: real)
    requires xs != [] && MovedAll(xs, ys, off)
    ensures MinOf(xs) == MinOf(ys) + off && MaxOf(xs) == MaxOf(ys) + off
  {
    if |xs| > 1 { MinMaxMove(xs[1..], ys[1..], off); }
  }

  lemma {:induction false} PlaceMoves(b: Branch, depth: nat, cursor: real, d: nat, c: real, s: Style, ext: Id -> real)
    ensures MovedBlock(Place(b, depth, cursor, s, ext), Place(b, d, c, s, ext), cursor - c)
    decreases b, 1
  {
    if b.kids != [] {
      KidsMove(b, depth, cursor, d, c, s, ext);
      MinMaxMove(PlaceKids(b, depth, cursor, s, ext).centers, PlaceKids(b, d, c, s, ext).centers, cursor - c);
    }
  }

  lemma {:induction false} KidsMove(b: Branch, depth: nat, cursor: real, d: nat, c: real, s: Style, ext: Id -> real)
    requires b.kids != []
    ensures MovedRow(PlaceKids(b, depth, cursor, s, ext), PlaceKids(b, d, c, s, ext), cursor - c)
    decreases b, 0
  {
    if s.leafPack && |b.kids| >= 4 && AllLeaves(b.kids) {
      var h := ext(b.kids[0].id);
      PackMoves(b.kids, 0, depth + 1, cursor, Center(cursor, h), d + 1, c, Center(c, h), s, ext);
    } else if Wraps(b, s) {
      LanesMove(b.kids, depth + 1, d + 1, LaneDepth(MaxHeight(b.kids)), cursor, cursor, c, c, s, ext);
    } else {
      StackMoves(b.kids, depth + 1, cursor, d + 1, c, s, ext);
    }
  }

  lemma {:induction false} StackMoves(kids: seq<Branch>, depth: nat, cursor: real, d: nat, c: real, s: Style, ext: Id -> real)
    ensures MovedRow(PlaceStack(kids, depth, cursor, s, ext), PlaceStack(kids, d, c, s, ext), cursor - c)
    decreases kids, 0
  {
    if kids != [] {
      var b, was := Place(kids[0], depth, cursor, s, ext), Place(kids[0], d, c, s, ext);
      PlaceMoves(kids[0], depth, cursor, d, c, s, ext);
      StackMoves(kids[1..], depth, b.end, d, was.end, s, ext);
    }
  }

  lemma {:induction false} LanesMove(kids: seq<Branch>, depth: nat, d: nat, laneDepth: nat, c0: real, c1: real, e0: real, e1: real,
                                     s: Style, ext: Id -> real)
    requires c0 - e0 == c1 - e1
    ensures MovedRow(PlaceLanes(kids, depth, laneDepth, c0, c1, s, ext), PlaceLanes(kids, d, laneDepth, e0, e1, s, ext), c0 - e0)
    decreases kids, 0
  {
    if kids != [] {
      if c0 <= c1 {
        PlaceMoves(kids[0], depth, c0, d, e0, s, ext);
        LanesMove(kids[1..], depth, d, laneDepth, Place(kids[0], depth, c0, s, ext).end, c1,
                  Place(kids[0], d, e0, s, ext).end, e1, s, ext);
      } else {
        PlaceMoves(kids[0], depth + laneDepth, c1, d + laneDepth, e1, s, ext);
        LanesMove(kids[1..], depth, d, laneDepth, c0, Place(kids[0], depth + laneDepth, c1, s, ext).end,
                  e0, Place(kids[0], d + laneDepth, e1, s, ext).end, s, ext);
      }
    }
  }

  lemma {:induction false} PackMoves(kids: seq<Branch>, column: nat, depth: nat, c0: real, c1: real, d: nat, e0: real, e1: real,
                                     s: Style, ext: Id -> real)
    requires column < 2 && c0 - e0 == c1 - e1
    ensures MovedRow(PackLeaves(kids, column, depth, c0, c1, s, ext), PackLeaves(kids, column, d, e0, e1, s, ext), c0 - e0)
  {
    if kids != [] {
      var h := ext(kids[0].id);
      PackMoves(kids[1..], Other(column), depth, Next0(c0, column, h), Next1(c1, column, h),
                d, Next0(e0, column, h), Next1(e1, column, h), s, ext);
    }
  }

  // ---------------------------------------------------------------- blocks fit

  lemma {:induction false} PlaceFits(b: Branch, depth: nat, cursor: real, s: Style, ext: Id -> real)
    requires FlatLanes(b, s) && Roomy(b, s, ext)
    ensures BlockFits(Place(b, depth, cursor, s, ext), cursor, Across(s, depth), ext(b.id), ext)
    decreases b, 1
  {
    PlaceMoves(b, depth, cursor, 0, 0.0, s, ext);
    if b.kids != [] {
      KidsFit(b, depth, cursor, s, ext);
      ParentFits(b.id, PlaceKids(b, depth, cursor, s, ext), depth, cursor, s, ext);
    }
  }

  // A parent whose box fits over a row of kids.
  lemma ParentFits(id: Id, row: Row, depth: nat, cursor: real, s: Style, ext: Id -> real)
    requires row.centers != [] && ext(id) > 0.0
    requires RowFits(row, cursor, Across(s, depth + 1), ext)
    requires var main := (MinOf(row.centers) + MaxOf(row.centers)) / 2.0;
             BoxFits(Block(Max(row.end, Past(cursor, ext(id))), main, []), cursor, ext(id))
    ensures var main := (MinOf(row.centers) + MaxOf(row.centers)) / 2.0;
            BlockFits(Block(Max(row.end, Past(cursor, ext(id))), main, row.spots + [Spot(id, Across(s, depth), main)]),
                      cursor, Across(s, depth), ext(id), ext)
  {
    var main := (MinOf(row.centers) + MaxOf(row.centers)) / 2.0;
    var p, end := Spot(id, Across(s, depth), main), Max(row.end, Past(cursor, ext(id)));
    Deeper(s, depth);
    JoinAlone(row.spots, p, Across(s, depth + 1), ext);
    var spots := row.spots + [p];
    forall i | 0 <= i < |spots|
      ensures cursor <= spots[i].main - ext(spots[i].id) / 2.0
      ensures spots[i].main + ext(spots[i].id) / 2.0 <= end
    {
      if i < |row.spots| { assert spots[i] == row.spots[i]; }
    }
  }

  lemma Deeper(s: Style, depth: nat)
    ensures Across(s, depth) < Across(s, depth + 1)
  {
    assert (depth + 1) as real == depth as real + 1.0;
  }

  lemma {:induction false} KidsFit(b: Branch, depth: nat, cursor: real, s: Style, ext: Id -> real)
    requires FlatLanes(b, s) && Roomy(b, s, ext) && b.kids != []
    ensures RowFits(PlaceKids(b, depth, cursor, s, ext), cursor, Across(s, depth + 1), ext)
    decreases b, 0
  {
    if s.leafPack && |b.kids| >= 4 && AllLeaves(b.kids) {
      EachRoomy(b.kids, s, ext);
      assert b.kids[0] in b.kids;
      PackFits(b.kids, depth + 1, cursor, Center(cursor, ext(b.kids[0].id)), s, ext);
    } else if Wraps(b, s) {
      LanesFit(b.kids, depth + 1, LaneDepth(MaxHeight(b.kids)), cursor, cursor, s, ext);
      LanesInRow(PlaceLanes(b.kids, depth + 1, LaneDepth(MaxHeight(b.kids)), cursor, cursor, s, ext),
                 Across(s, depth + 1 + LaneDepth(MaxHeight(b.kids))), cursor, s, ext);
    } else {
      StackFits(b.kids, depth + 1, cursor, s, ext);
    }
  }

  lemma {:induction false} StackFits(kids: seq<Branch>, depth: nat, cursor: real, s: Style, ext: Id -> real)
    requires (forall k | k in kids :: FlatLanes(k, s)) && AllRoomy(kids, s, ext)
    ensures RowFits(PlaceStack(kids, depth, cursor, s, ext), cursor, Across(s, depth), ext)
    decreases kids, 0
  {
    if kids != [] {
      var b := Place(kids[0], depth, cursor, s, ext);
      var rest := PlaceStack(kids[1..], depth, b.end, s, ext);
      assert kids[0] in kids;
      PlaceFits(kids[0], depth, cursor, s, ext);
      StackFits(kids[1..], depth, b.end, s, ext);
      JoinBlocks(b.spots, rest.spots, cursor, b.end, rest.end, ext);
    }
  }

  // ----------------------------------------------------------- lanes side by side

  lemma {:induction false} NoLanesIsFlat(b: Branch, s: Style)
    requires NoLanes(b, s)
    ensures FlatLanes(b, s)
  {
    forall k | k in b.kids ensures FlatLanes(k, s) { NoLanesIsFlat(k, s); }
  }

  lemma {:induction false} NoWrapNoLanes(b: Branch, s: Style)
    requires !s.laneWrap
    ensures NoLanes(b, s)
  {
    forall k | k in b.kids ensures NoLanes(k, s) { NoWrapNoLanes(k, s); }
  }

  // The columns and top-down views have no lanes.
  lemma NoWrapIsFlat(b: Branch, s: Style)
    requires !s.laneWrap
    ensures FlatLanes(b, s)
  {
    NoWrapNoLanes(b, s);
    NoLanesIsFlat(b, s);
  }

  // Spots between two places on the depth axis.
  ghost predicate InBand(spots: seq<Spot>, from: real, to: real) {
    forall i | 0 <= i < |spots| :: from <= spots[i].across < to
  }

  lemma AcrossGrows(s: Style, d: nat, e: nat)
    requires d <= e
    ensures Across(s, d) <= Across(s, e) && (d < e ==> Across(s, d) + LeafOffset(s) < Across(s, e))
  {
    assert e as real >= d as real && (d < e ==> e as real >= d as real + 1.0);
  }

  // A branch without lanes takes no more columns than it is high.
  lemma {:induction false} PlaceBand(b: Branch, depth: nat, cursor: real, s: Style, ext: Id -> real)
    requires NoLanes(b, s)
    ensures InBand(Place(b, depth, cursor, s, ext).spots, Across(s, depth), Across(s, depth + Height(b)))
    decreases b, 1
  {
    AcrossGrows(s, depth, depth + Height(b));
    if b.kids != [] {
      AcrossGrows(s, depth, depth + 1);
      if s.leafPack && |b.kids| >= 4 && AllLeaves(b.kids) {
        PackBand(b.kids, 0, depth + 1, cursor, Center(cursor, ext(b.kids[0].id)), s, ext);
        AcrossGrows(s, depth + 2, depth + Height(b));
      } else {
        StackBand(b.kids, depth + 1, cursor, s, ext, depth + Height(b));
      }
    }
  }

  lemma {:induction false} StackBand(kids: seq<Branch>, depth: nat, cursor: real, s: Style, ext: Id -> real, to: nat)
    requires (forall k | k in kids :: NoLanes(k, s)) && to >= depth + MaxHeight(kids)
    ensures InBand(PlaceStack(kids, depth, cursor, s, ext).spots, Across(s, depth), Across(s, to))
    decreases kids, 0
  {
    if kids != [] {
      var b := Place(kids[0], depth, cursor, s, ext);
      assert kids[0] in kids;
      PlaceBand(kids[0], depth, cursor, s, ext);
      AcrossGrows(s, depth + Height(kids[0]), to);
      StackBand(kids[1..], depth, b.end, s, ext, to);
    }
  }

  lemma {:induction false} PackBand(kids: seq<Branch>, column: nat, depth: nat, c0: real, c1: real, s: Style, ext: Id -> real)
    requires column < 2
    ensures InBand(PackLeaves(kids, column, depth, c0, c1, s, ext).spots, Across(s, depth), Across(s, depth + 1))
  {
    if kids != [] {
      var h := ext(kids[0].id);
      AcrossGrows(s, depth, depth + 1);
      PackBand(kids[1..], Other(column), depth, Next0(c0, column, h), Next1(c1, column, h), s, ext);
    }
  }

  // What is in the first of two lanes is more than a column before all that is in
  // the second.
  lemma LanesBeside(kids: seq<Branch>, depth: nat, x: Branch, y: Branch, cx: real, cy: real, s: Style, ext: Id -> real)
    requires x in kids && y in kids && NoLanes(x, s) && NoLanes(y, s)
    ensures forall p, q | p in Place(x, depth, cx, s, ext).spots
                       && q in Place(y, depth + LaneDepth(MaxHeight(kids)), cy, s, ext).spots ::
              p.across + DepthSep(s) < q.across
  {
    PlaceBand(x, depth, cx, s, ext);
    PlaceBand(y, depth + LaneDepth(MaxHeight(kids)), cy, s, ext);
    HighestOf(kids, x);
    AcrossGrows(s, depth + Height(x) + 1, depth + LaneDepth(MaxHeight(kids)));
    assert (depth + Height(x) + 1) as real == (depth + Height(x)) as real + 1.0;
  }

  lemma {:induction false} HighestOf(kids: seq<Branch>, x: Branch)
    requires x in kids
    ensures Height(x) <= MaxHeight(kids)
  {
    if x != kids[0] { HighestOf(kids[1..], x); }
  }

  // A node of the second lane stands one column past the highest branch of the row.
  lemma SecondLaneStands(kids: seq<Branch>, depth: nat, y: Branch, cursor: real, s: Style, ext: Id -> real)
    ensures var spots := Place(y, depth + LaneDepth(MaxHeight(kids)), cursor, s, ext).spots;
            && spots != [] && spots[|spots| - 1].id == y.id
            && spots[|spots| - 1].across == (depth + MaxHeight(kids) + 1) as real * (if s.vertical then 150.0 else 260.0)
  {
  }

  // Packed leaves stand in two staggered columns in turn.
  lemma {:induction false} PackAlternates(kids: seq<Branch>, column: nat, depth: nat, c0: real, c1: real, s: Style, ext: Id -> real, i: nat)
    requires column < 2 && i < |kids|
    ensures var spots := PackLeaves(kids, column, depth, c0, c1, s, ext).spots;
            && |spots| == |kids| && spots[i].id == kids[i].id
            && spots[i].across == Across(s, depth) + if (i + column) % 2 == 0 then 0.0 else if s.vertical then 65.0 else 130.0
  {
    var h := ext(kids[0].id);
    if |kids| == 1 {
    } else if i > 0 {
      PackAlternates(kids[1..], Other(column), depth, Next0(c0, column, h), Next1(c1, column, h), s, ext, i - 1);
      assert (i + column) % 2 == (i - 1 + Other(column)) % 2;
    } else {
      PackAlternates(kids[1..], Other(column), depth, Next0(c0, column, h), Next1(c1, column, h), s, ext, 0);
    }
  }

  lemma {:induction false} MinMaxAre(xs: seq<real>)
    requires xs != []
    ensures MinOf(xs) in xs && MaxOf(xs) in xs
    ensures forall x | x in xs :: MinOf(xs) <= x <= MaxOf(xs)
  {
    if |xs| > 1 {
      MinMaxAre(xs[1..]);
      assert xs == [xs[0]] + xs[1..];
    }
  }

  // A parent stands midway between the outermost of its children's centers.
  lemma ParentIsCentered(b: Branch, depth: nat, cursor: real, s: Style, ext: Id -> real) returns (lo: real, hi: real)
    requires b.kids != []
    ensures var centers := PlaceKids(b, depth, cursor, s, ext).centers;
            && lo in centers && hi in centers && (forall x | x in centers :: lo <= x <= hi)
            && Place(b, depth, cursor, s, ext).main == (lo + hi) / 2.0
  {
    var centers := PlaceKids(b, depth, cursor, s, ext).centers;
    MinMaxAre(centers);
    lo, hi := MinOf(centers), MaxOf(centers);
  }

  // A leaf is 1 high, and any other node one more than its highest child.
  lemma {:induction false} HeightIs(b: Branch)
    ensures b.kids == [] ==> Height(b) == 1
    ensures b.kids != [] ==> exists k :: k in b.kids && Height(b) == Height(k) + 1
    ensures forall k | k in b.kids :: Height(k) < Height(b)
  {
    forall k | k in b.kids ensures Height(k) < Height(b) { HighestOf(b.kids, k); }
    if b.kids != [] {
      var k := HighestIn(b.kids);
      assert k in b.kids && Height(b) == Height(k) + 1;
    }
  }

  lemma {:induction false} HighestIn(kids: seq<Branch>) returns (k: Branch)
    requires kids != []
    ensures k in kids && Height(k) == MaxHeight(kids)
  {
    if |kids| == 1 || Height(kids[0]) >= MaxHeight(kids[1..]) {
      k := kids[0];
    } else {
      k := HighestIn(kids[1..]);
    }
  }

  // In two lanes: on this side of `split` past `c0`, or on the other past `c1`.
  ghost predicate InLanes(spots: seq<Spot>, split: real, c0: real, c1: real, ext: Id -> real) {
    forall i | 0 <= i < |spots| :: LaneSpot(spots[i], split, c0, c1, ext)
  }

  predicate LaneSpot(p: Spot, split: real, c0: real, c1: real, ext: Id -> real) {
    (if p.across < split then c0 else c1) <= p.main - ext(p.id) / 2.0
  }

  // A row in lanes.
  ghost predicate LanesRow(row: Row, depth: nat, split: real, c0: real, c1: real, s: Style, ext: Id -> real) {
    && c0 <= row.end && c1 <= row.end
    && (forall i | 0 <= i < |row.spots| :: row.spots[i].main + ext(row.spots[i].id) / 2.0 <= row.end)
    && InLanes(row.spots, split, c0, c1, ext)
    && AllApart(row.spots, ext)
    && NoneAbove(row.spots, Across(s, depth))
  }

  // One more block in front, in the lane it is put in.
  lemma FirstLane(b: Block, rest: Row, depth: nat, split: real, c0: real, c1: real, first: bool, s: Style, ext: Id -> real)
    requires LanesRow(rest, depth, split, if first then b.end else c0, if first then c1 else b.end, s, ext)
    requires (if first then c0 else c1) <= b.end && AllApart(b.spots, ext)
    requires InBlock(b.spots, if first then c0 else c1, b.end, ext) && NoneAbove(b.spots, Across(s, depth))
    requires forall i | 0 <= i < |b.spots| :: b.spots[i].across < split <==> first
    ensures LanesRow(Row(rest.end, [b.main] + rest.centers, b.spots + rest.spots), depth, split, c0, c1, s, ext)
  {
    var spots := b.spots + rest.spots;
    forall i | 0 <= i < |spots|
      ensures LaneSpot(spots[i], split, c0, c1, ext) && spots[i].main + ext(spots[i].id) / 2.0 <= rest.end
    {
      if i < |b.spots| {
        assert spots[i] == b.spots[i];
      } else {
        assert spots[i] == rest.spots[i - |b.spots|] && LaneSpot(rest.spots[i - |b.spots|], split, if first then b.end else c0, if first then c1 else b.end, ext);
      }
    }
    forall i, j | 0 <= i < j < |spots| ensures Apart(spots[i], spots[j], ext) {
      if j < |b.spots| {
        assert spots[i] == b.spots[i] && spots[j] == b.spots[j];
      } else if i >= |b.spots| {
        assert spots[i] == rest.spots[i - |b.spots|] && spots[j] == rest.spots[j - |b.spots|];
      } else {
        assert spots[i] == b.spots[i] && spots[j] == rest.spots[j - |b.spots|];
        assert LaneSpot(spots[j], split, if first then b.end else c0, if first then c1 else b.end, ext);
      }
    }
  }

  // Two lanes of branches without lanes: all of the first is on this side of where
  // the second begins, and in each the blocks follow one another.
  lemma {:induction false} LanesFit(kids: seq<Branch>, depth: nat, laneDepth: nat, c0: real, c1: real, s: Style, ext: Id -> real)
    requires (forall k | k in kids :: NoLanes(k, s)) && AllRoomy(kids, s, ext) && laneDepth >= MaxHeight(kids)
    ensures LanesRow(PlaceLanes(kids, depth, laneDepth, c0, c1, s, ext), depth, Across(s, depth + laneDepth), c0, c1, s, ext)
    decreases kids, 0
  {
    if kids != [] {
      var first := c0 <= c1;
      var at, from := if first then depth else depth + laneDepth, if first then c0 else c1;
      var b := Place(kids[0], at, from, s, ext);
      assert kids[0] in kids;
      NoLanesIsFlat(kids[0], s);
      PlaceFits(kids[0], at, from, s, ext);
      PlaceBand(kids[0], at, from, s, ext);
      AcrossGrows(s, depth, at);
      AcrossGrows(s, depth + Height(kids[0]), depth + laneDepth);
      var e0, e1 := if first then b.end else c0, if first then c1 else b.end;
      LanesFit(kids[1..], depth, laneDepth, e0, e1, s, ext);
      FirstLane(b, PlaceLanes(kids[1..], depth, laneDepth, e0, e1, s, ext), depth, Across(s, depth + laneDepth), c0, c1, first, s, ext);
    }
  }

  lemma LanesInRow(row: Row, split: real, from: real, s: Style, ext: Id -> real)
    requires InLanes(row.spots, split, from, from, ext)
    requires forall i | 0 <= i < |row.spots| :: row.spots[i].main + ext(row.spots[i].id) / 2.0 <= row.end
    ensures InBlock(row.spots, from, row.end, ext)
  {
    forall i | 0 <= i < |row.spots| ensures from <= row.spots[i].main - ext(row.spots[i].id) / 2.0 {
      assert LaneSpot(row.spots[i], split, from, from, ext);
    }
  }

  // Where packed leaves may be: each of the two columns from its own cursor on.
  ghost predicate InColumns(spots: seq<Spot>, depth: nat, c0: real, c1: real, s: Style, ext: Id -> real) {
    forall i | 0 <= i < |spots| ::
      || (spots[i].across == Across(s, depth) && c0 <= spots[i].main - ext(spots[i].id) / 2.0)
      || (spots[i].across == Across(s, depth) + LeafOffset(s) && c1 <= spots[i].main - ext(spots[i].id) / 2.0)
  }

  lemma {:induction false} PackEnds(kids: seq<Branch>, column: nat, depth: nat, c0: real, c1: real, s: Style, ext: Id -> real)
    requires column < 2 && forall k | k in kids :: ext(k.id) > 0.0
    ensures Max(c0, c1) <= PackLeaves(kids, column, depth, c0, c1, s, ext).end
  {
    if kids != [] {
      var h := ext(kids[0].id);
      assert kids[0] in kids;
      PackEnds(kids[1..], Other(column), depth, Next0(c0, column, h), Next1(c1, column, h), s, ext);
    }
  }

  lemma {:induction false} PackInBlock(kids: seq<Branch>, column: nat, depth: nat, from: real, c0: real, c1: real,
                                       s: Style, ext: Id -> real)
    requires column < 2 && from <= c0 && from <= c1 && forall k | k in kids :: ext(k.id) > 0.0
    ensures var row := PackLeaves(kids, column, depth, c0, c1, s, ext);
            InBlock(row.spots, from, row.end, ext)
  {
    if kids != [] {
      var h := ext(kids[0].id);
      assert kids[0] in kids;
      PackInBlock(kids[1..], Other(column), depth, from, Next0(c0, column, h), Next1(c1, column, h), s, ext);
      PackEnds(kids[1..], Other(column), depth, Next0(c0, column, h), Next1(c1, column, h), s, ext);
    }
  }

  lemma {:induction false} PackCenters(kids: seq<Branch>, column: nat, depth: nat, from: real, c0: real, c1: real, own: real,
                                       s: Style, ext: Id -> real)
    requires column < 2 && from <= c0 && from <= c1 && own > 0.0 && forall k | k in kids :: own <= ext(k.id)
    ensures var row := PackLeaves(kids, column, depth, c0, c1, s, ext);
            Within(row.centers, from + own / 2.0, row.end - own / 2.0)
  {
    if kids != [] {
      var h := ext(kids[0].id);
      assert kids[0] in kids;
      PackCenters(kids[1..], Other(column), depth, from, Next0(c0, column, h), Next1(c1, column, h), own, s, ext);
      PackEnds(kids[1..], Other(column), depth, Next0(c0, column, h), Next1(c1, column, h), s, ext);
    }
  }

  lemma {:induction false} PackInColumns(kids: seq<Branch>, column: nat, depth: nat, c0: real, c1: real, s: Style, ext: Id -> real)
    requires column < 2 && forall k | k in kids :: ext(k.id) > 0.0
    ensures InColumns(PackLeaves(kids, column, depth, c0, c1, s, ext).spots, depth, c0, c1, s, ext)
  {
    if kids != [] {
      var h := ext(kids[0].id);
      assert kids[0] in kids;
      PackInColumns(kids[1..], Other(column), depth, Next0(c0, column, h), Next1(c1, column, h), s, ext);
    }
  }

  lemma {:induction false} PackApart(kids: seq<Branch>, column: nat, depth: nat, c0: real, c1: real, s: Style, ext: Id -> real)
    requires column < 2 && forall k | k in kids :: ext(k.id) > 0.0
    ensures AllApart(PackLeaves(kids, column, depth, c0, c1, s, ext).spots, ext)
  {
    if kids != [] {
      var h := ext(kids[0].id);
      assert kids[0] in kids;
      var rest := PackLeaves(kids[1..], Other(column), depth, Next0(c0, column, h), Next1(c1, column, h), s, ext).spots;
      PackApart(kids[1..], Other(column), depth, Next0(c0, column, h), Next1(c1, column, h), s, ext);
      PackInColumns(kids[1..], Other(column), depth, Next0(c0, column, h), Next1(c1, column, h), s, ext);
      var p := PackLeaves(kids, column, depth, c0, c1, s, ext).spots[0];
      FirstApart(p, rest, column, depth, c0, c1, s, ext);
    }
  }

  lemma FirstApart(p: Spot, rest: seq<Spot>, column: nat, depth: nat, c0: real, c1: real, s: Style, ext: Id -> real)
    requires column < 2 && AllApart(rest, ext)
    requires p.across == Across(s, depth) + ColumnOffset(s, column)
    requires p.main == (if column == 0 then c0 else c1) + ext(p.id) / 2.0
    requires InColumns(rest, depth, Next0(c0, column, ext(p.id)), Next1(c1, column, ext(p.id)), s, ext)
    ensures AllApart([p] + rest, ext)
  {
    var spots := [p] + rest;
    forall i, j | 0 <= i < j < |spots| ensures Apart(spots[i], spots[j], ext) {
      assert spots[j] == rest[j - 1];
      if i > 0 { assert spots[i] == rest[i - 1]; }
    }
  }

  lemma PackFits(kids: seq<Branch>, depth: nat, from: real, c1: real, s: Style, ext: Id -> real)
    requires from <= c1 && forall k | k in kids :: ext(k.id) > 0.0
    ensures RowFits(PackLeaves(kids, 0, depth, from, c1, s, ext), from, Across(s, depth), ext)
  {
    PackEnds(kids, 0, depth, from, c1, s, ext);
    PackInBlock(kids, 0, depth, from, from, c1, s, ext);
    PackApart(kids, 0, depth, from, c1, s, ext);
    PackInColumns(kids, 0, depth, from, c1, s, ext);
  }

  // In every view: when each node's box fits over its row, and no lanes are nested
  // in lanes, no two boxes of one column overlap, over the whole forest. The
  // columns and top-down views have no lanes at all.
  lemma {:induction false} ForestApart(roots: seq<Branch>, cursor: real, s: Style, ext: Id -> real)
    requires (forall r | r in roots :: FlatLanes(r, s)) && AllRoomy(roots, s, ext)
    ensures var row := PlaceRoots(roots, cursor, s, ext);
            && cursor <= row.end
            && InBlock(row.spots, cursor, row.end, ext)
            && AllApart(row.spots, ext)
  {
    if roots != [] {
      var b := Place(roots[0], 0, cursor, s, ext);
      var rest := PlaceRoots(roots[1..], Past(b.end, GAP), s, ext);
      assert roots[0] in roots;
      PlaceFits(roots[0], 0, cursor, s, ext);
      ForestApart(roots[1..], Past(b.end, GAP), s, ext);
      InBlockWiden(rest.spots, Past(b.end, GAP), rest.end, b.end, rest.end, ext);
      JoinBlocks(b.spots, rest.spots, cursor, b.end, rest.end, ext);
    }
  }

  // ------------------------------------------------------------ who fits its row

  // A box no larger than any of the kids' fits over their row.
  lemma {:induction false} StackCenters(kids: seq<Branch>, depth: nat, cursor: real, own: real, s: Style, ext: Id -> real)
    requires own > 0.0 && AllRoomy(kids, s, ext) && (forall k | k in kids :: FlatLanes(k, s)) && forall k | k in kids :: own <= ext(k.id)
    ensures var row := PlaceStack(kids, depth, cursor, s, ext);
            cursor <= row.end && Within(row.centers, cursor + own / 2.0, row.end - own / 2.0)
    decreases kids, 0
  {
    if kids != [] {
      var b := Place(kids[0], depth, cursor, s, ext);
      var rest := PlaceStack(kids[1..], depth, b.end, s, ext);
      PlaceFits(kids[0], depth, cursor, s, ext);
      StackCenters(kids[1..], depth, b.end, own, s, ext);
      assert own <= ext(kids[0].id);
      var centers := [b.main] + rest.centers;
      forall i | 0 <= i < |centers| ensures cursor + own / 2.0 <= centers[i] <= rest.end - own / 2.0 {
        if i > 0 { assert centers[i] == rest.centers[i - 1]; }
      }
    }
  }

  lemma {:induction false} LaneCenters(kids: seq<Branch>, depth: nat, laneDepth: nat, from: real, c0: real, c1: real, own: real,
                                       s: Style, ext: Id -> real)
    requires from <= c0 && from <= c1 && own > 0.0 && AllRoomy(kids, s, ext)
    requires (forall k | k in kids :: FlatLanes(k, s)) && forall k | k in kids :: own <= ext(k.id)
    ensures var row := PlaceLanes(kids, depth, laneDepth, c0, c1, s, ext);
            c0 <= row.end && c1 <= row.end && Within(row.centers, from + own / 2.0, row.end - own / 2.0)
    decreases kids, 0
  {
    if kids != [] {
      var first := c0 <= c1;
      var at, start := if first then depth else depth + laneDepth, if first then c0 else c1;
      var b := Place(kids[0], at, start, s, ext);
      assert kids[0] in kids;
      PlaceFits(kids[0], at, start, s, ext);
      var e0, e1 := if first then b.end else c0, if first then c1 else b.end;
      var rest := PlaceLanes(kids[1..], depth, laneDepth, e0, e1, s, ext);
      LaneCenters(kids[1..], depth, laneDepth, from, e0, e1, own, s, ext);
      var centers := [b.main] + rest.centers;
      forall i | 0 <= i < |centers| ensures from + own / 2.0 <= centers[i] <= rest.end - own / 2.0 {
        if i > 0 { assert centers[i] == rest.centers[i - 1]; }
      }
    }
  }

  // So a forest in which no node is larger than any of its children is roomy, one
  // of boxes all alike for example.
  lemma {:induction false} GrowsIsRoomy(b: Branch, s: Style, ext: Id -> real)
    requires FlatLanes(b, s) && Grows(b, ext)
    ensures Roomy(b, s, ext)
    decreases b, 1
  {
    if b.kids != [] {
      AllGrow(b.kids, s, ext);
      var row, own := PlaceKids(b, 0, 0.0, s, ext), ext(b.id);
      if s.leafPack && |b.kids| >= 4 && AllLeaves(b.kids) {
        assert b.kids[0] in b.kids;
        PackCenters(b.kids, 0, 1, 0.0, 0.0, Center(0.0, ext(b.kids[0].id)), own, s, ext);
      } else if Wraps(b, s) {
        LaneCenters(b.kids, 1, LaneDepth(MaxHeight(b.kids)), 0.0, 0.0, 0.0, own, s, ext);
      } else {
        StackCenters(b.kids, 1, 0.0, own, s, ext);
      }
      MinMaxWithin(row.centers, own / 2.0, row.end - own / 2.0);
    }
  }

  lemma {:induction false} AllGrow(kids: seq<Branch>, s: Style, ext: Id -> real)
    requires forall k | k in kids :: FlatLanes(k, s) && Grows(k, ext)
    ensures AllRoomy(kids, s, ext)
    decreases kids, 0
  {
    if kids != [] {
      assert kids[0] in kids;
      GrowsIsRoomy(kids[0], s, ext);
      AllGrow(kids[1..], s, ext);
    }
  }

  // ------------------------------------------------------------------- lanes

  // Where the two lanes end.
  function LaneEnds(kids: seq<Branch>, depth: nat, laneDepth: nat, c0: real, c1: real, s: Style, ext: Id -> real): (real, real) {
    if kids == [] then (c0, c1)
    else
      var first := c0 <= c1;
      var b := Place(kids[0], if first then depth else depth + laneDepth, if first then c0 else c1, s, ext);
      if first then LaneEnds(kids[1..], depth, laneDepth, b.end, c1, s, ext)
      else LaneEnds(kids[1..], depth, laneDepth, c0, b.end, s, ext)
  }

  // The longest of the blocks in the two lanes.
  function Longest(kids: seq<Branch>, depth: nat, laneDepth: nat, c0: real, c1: real, s: Style, ext: Id -> real): real {
    if kids == [] then 0.0
    else
      var first := c0 <= c1;
      var from := if first then c0 else c1;
      var b := Place(kids[0], if first then depth else depth + laneDepth, from, s, ext);
      Max(b.end - from,
          if first then Longest(kids[1..], depth, laneDepth, b.end, c1, s, ext)
          else Longest(kids[1..], depth, laneDepth, c0, b.end, s, ext))
  }

  function Distance(a: real, b: real): real { if a <= b then b - a else a - b }

  lemma ShorterLaneGrows(low: real, high: real, end: real)
    requires low <= high && low <= end
    ensures Distance(end, high) <= Max(Distance(low, high), end - low)
  {
  }

  // The greedy choice keeps the lanes level: they end no farther apart than the
  // longest block in them, or than they began; and the row ends where the longer
  // one does.
  lemma {:induction false} LanesStayLevel(kids: seq<Branch>, depth: nat, laneDepth: nat, c0: real, c1: real, s: Style, ext: Id -> real)
    requires forall id :: ext(id) >= 0.0
    ensures var (e0, e1) := LaneEnds(kids, depth, laneDepth, c0, c1, s, ext);
            && Distance(e0, e1) <= Max(Distance(c0, c1), Longest(kids, depth, laneDepth, c0, c1, s, ext))
            && PlaceLanes(kids, depth, laneDepth, c0, c1, s, ext).end == Max(e0, e1)
  {
    if kids != [] {
      var first := c0 <= c1;
      var from := if first then c0 else c1;
      var b := Place(kids[0], if first then depth else depth + laneDepth, from, s, ext);
      assert b.end >= from by { assert ext(kids[0].id) >= 0.0; }
      if first {
        ShorterLaneGrows(c0, c1, b.end);
        LanesStayLevel(kids[1..], depth, laneDepth, b.end, c1, s, ext);
      } else {
        ShorterLaneGrows(c1, c0, b.end);
        LanesStayLevel(kids[1..], depth, laneDepth, c0, b.end, s, ext);
      }
    }
  }

  // A parent larger than each of its children may fit over a row of two.
  lemma LargeParentFits()
    ensures var ext := (id: Id) => if id == 1 then 100.0 else 56.0;
            var b := Branch(1, [Branch(2, []), Branch(3, [])]);
            Roomy(b, COLUMNS, ext) && !Grows(b, ext)
  {
    var ext := (id: Id) => if id == 1 then 100.0 else 56.0;
    var k2, k3 := Branch(2, []), Branch(3, []);
    var b := Branch(1, [k2, k3]);
    assert b.kids[1..] == [k3] && b.kids[1..][1..] == [];
    assert Place(k3, 1, 56.0, COLUMNS, ext) == Block(112.0, 84.0, [Spot(3, Across(COLUMNS, 1), 84.0)]);
    assert Place(k2, 1, 0.0, COLUMNS, ext) == Block(56.0, 28.0, [Spot(2, Across(COLUMNS, 1), 28.0)]);
    assert [k3][1..] == [];
    assert PlaceStack([], 1, 112.0, COLUMNS, ext) == Row(112.0, [], []);
    var last := PlaceStack([k3], 1, 56.0, COLUMNS, ext);
    assert last.end == 112.0 && last.centers == [84.0] + [] == [84.0];
    var row := PlaceStack(b.kids, 1, 0.0, COLUMNS, ext);
    assert row.end == 112.0 && row.centers == [28.0] + [84.0];
    assert MinOf([84.0]) == 84.0 && row.centers[1..] == [84.0];
    assert PlaceKids(b, 0, 0.0, COLUMNS, ext) == row;
    assert Roomy(k2, COLUMNS, ext) && Roomy(k3, COLUMNS, ext);
    assert AllRoomy(b.kids[1..], COLUMNS, ext);
    assert k2 in b.kids;
  }

  // A parent larger than its block reaches back past its cursor: here node 2,
  // 156 high over a child of 56, overlaps node 1 in its column.
  lemma LargeParentOverlaps()
    ensures var ext := (id: Id) => if id == 2 then 156.0 else 56.0;
            var roots := [Branch(1, []), Branch(2, [Branch(3, [])])];
            !AllApart(PlaceRoots(roots, 0.0, COLUMNS, ext).spots, ext)
  {
    var ext := (id: Id) => if id == 2 then 156.0 else 56.0;
    var kid := Branch(3, []);
    var parent := Branch(2, [kid]);
    var roots := [Branch(1, []), parent];
    var row := PlaceStack(parent.kids, 1, 78.0, COLUMNS, ext);
    assert PlaceStack(parent.kids[1..], 1, 134.0, COLUMNS, ext) == Row(134.0, [], []);
    assert Place(kid, 1, 78.0, COLUMNS, ext) == Block(134.0, 106.0, [Spot(3, 260.0, 106.0)]);
    assert Across(COLUMNS, 1) == 260.0 && Across(COLUMNS, 0) == 0.0;
    assert row.centers == [106.0] + [] && row.spots == [Spot(3, 260.0, 106.0)] + [];
    assert row.centers == [106.0] && row.spots == [Spot(3, 260.0, 106.0)];
    var b := Place(parent, 0, 78.0, COLUMNS, ext);
    assert PlaceKids(parent, 0, 78.0, COLUMNS, ext) == row;
    assert b.main == 106.0;
    assert b.spots == [Spot(3, 260.0, 106.0)] + [Spot(2, 0.0, 106.0)];
    assert roots[1..] == [parent] && roots[1..][1..] == [];
    var rest := PlaceRoots(roots[1..], 78.0, COLUMNS, ext);
    assert PlaceRoots(roots[1..][1..], Past(b.end, GAP), COLUMNS, ext).spots == [];
    assert roots[1..][0] == parent;
    assert rest.spots == b.spots + [];
    var spots := PlaceRoots(roots, 0.0, COLUMNS, ext).spots;
    assert spots == [Spot(1, 0.0, 28.0)] + rest.spots;
    assert spots[0] == Spot(1, 0.0, 28.0) && spots[2] == Spot(2, 0.0, 106.0);
    assert !Apart(spots[0], spots[2], ext);
  }
}
