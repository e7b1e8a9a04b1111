// Where floating cards go (ui-assets/panel-geometry.js, cascadeSlot and
// cascadeColumn; ui-assets/side-panel.js, bottomLeftSpawn): searches for the
// first free place, over exact reals.
module Placement {
  import opened Wrappers
  import Sets

  function Abs(x: real): real { if x < 0.0 then -x else x }

  // ------------------------------------------------------------------ the cascade

  function Slot(base: real, step: real, k: nat): real { base + step * k as real }

  // A card within half a step of a slot holds it.
  predicate Holds(t: real, slot: real, step: real) { Abs(t - slot) < step / 2.0 }

  predicate Held(taken: seq<real>, slot: real, step: real) {
    exists i :: 0 <= i < |taken| && Holds(taken[i], slot, step)
  }

  lemma SlotsSpread(base: real, step: real, j: nat, k: nat)
    requires step > 0.0 && j < k
    ensures Slot(base, step, k) - Slot(base, step, j) >= step
  {
    Spread(step, (k - j) as real);
    assert step * k as real - step * j as real == step * (k - j) as real;
  }

  lemma Spread(step: real, n: real)
    requires step > 0.0 && n >= 1.0
    ensures step * n >= step
  {
    assert step * (n - 1.0) >= 0.0;
  }

  // No card holds two slots.
  lemma OneSlotEach(t: real, base: real, step: real, j: nat, k: nat)
    requires Holds(t, Slot(base, step, j), step) && Holds(t, Slot(base, step, k), step)
    ensures j == k
  {
    if j < k {
      SlotsSpread(base, step, j, k);
    } else if k < j {
      SlotsSpread(base, step, k, j);
    }
  }

  ghost predicate AllHeld(taken: seq<real>, base: real, step: real, slots: set<nat>) {
    forall k | k in slots :: Held(taken, Slot(base, step, k), step)
  }

  // So as many slots as are held, so many cards there are at least.
  lemma {:induction false} Pigeonhole(taken: seq<real>, base: real, step: real, slots: set<nat>)
    requires AllHeld(taken, base, step, slots)
    ensures |slots| <= |taken|
  {
    if slots != {} {
      var any := Sets.SomeMember(slots);
      assert Held(taken, Slot(base, step, any), step);
      var last := |taken| - 1;
      var left := set k | k in slots && !Holds(taken[last], Slot(base, step, k), step);
      forall k | k in left ensures Held(taken[..last], Slot(base, step, k), step) {
        var i :| 0 <= i < |taken| && Holds(taken[i], Slot(base, step, k), step);
        assert taken[..last][i] == taken[i];
      }
      Pigeonhole(taken[..last], base, step, left);
      AtMostOneLess(taken[last], base, step, slots, left);
    }
  }

  lemma AtMostOneLess(t: real, base: real, step: real, slots: set<nat>, left: set<nat>)
    requires left == set k | k in slots && !Holds(t, Slot(base, step, k), step)
    ensures |slots| <= |left| + 1
  {
    if k :| k in slots && Holds(t, Slot(base, step, k), step) {
      forall j | j in slots && j !in left ensures j == k { OneSlotEach(t, base, step, j, k); }
      assert slots == left + {k};
    } else {
      assert slots == left;
    }
  }

  function FirstSlots(n: nat): (s: set<nat>)
    ensures |s| == n && forall k: nat :: k in s <==> k < n
  {
    if n == 0 then {}
    else
      var fewer, last: nat := FirstSlots(n - 1), n - 1;
      assert last !in fewer;
      fewer + {last}
  }

  ghost predicate HeldUpTo(taken: seq<real>, base: real, step: real, n: nat) {
    forall j | 0 <= j < n :: Held(taken, Slot(base, step, j), step)
  }

  lemma SlotsRunOut(taken: seq<real>, base: real, step: real, n: nat)
    requires HeldUpTo(taken, base, step, n)
    ensures n <= |taken|
  {
    Pigeonhole(taken, base, step, FirstSlots(n));
  }

  // The first free slot of the cascade, found within one more slot than there are
  // cards, whatever the step.
  method CascadeSlot(taken: seq<real>, base: real, step: real) returns (slot: real, ghost k: nat)
    ensures slot == Slot(base, step, k) && k <= |taken|
    ensures !Held(taken, slot, step) && HeldUpTo(taken, base, step, k)
  {
    var n := 0;
    SlotsRunOut(taken, base, step, 0);
    while true
      invariant n <= |taken| && HeldUpTo(taken, base, step, n)
      decreases |taken| - n
    {
      slot := Slot(base, step, n);
      if !Held(taken, slot, step) { k := n; return; }
      SlotsRunOut(taken, base, step, n + 1);
      n := n + 1;
    }
  }

  datatype Offset = Offset(dx: real, dy: real, bottom: bool)

  // An open card: where it is placed, where a refit shows it, and whether it is
  // docked.
  datatype Card = Card(pos: Offset, shown: Option<Offset>, dock: bool)

  predicate InColumn(at: Offset, drift: real) { !at.bottom && Abs(at.dx) < drift }

  // The offsets a card claims slots by.
  function Offsets(c: Card): seq<Offset> {
    if c.shown.Some? && (c.shown.value.dx != c.pos.dx || c.shown.value.dy != c.pos.dy) then [c.pos, c.shown.value]
    else [c.pos]
  }

  ghost predicate Claims(cards: seq<Option<Card>>, drift: real, dy: real) {
    exists i, at :: 0 <= i < |cards| && ClaimsBy(cards[i], drift, at) && at.dy == dy
  }

  predicate ClaimsBy(c: Option<Card>, drift: real, at: Offset) {
    c.Some? && !c.value.dock && at in Offsets(c.value) && InColumn(at, drift)
  }

  method CascadeColumn(cards: seq<Option<Card>>, drift: real) returns (taken: seq<real>)
    ensures forall dy :: dy in taken <==> Claims(cards, drift, dy)
  {
    taken := [];
    for i := 0 to |cards|
      invariant forall dy :: dy in taken <==> Claims(cards[..i], drift, dy)
    {
      ghost var was := taken;
      if cards[i].Some? && !cards[i].value.dock {
        var offsets := Offsets(cards[i].value);
        for j := 0 to |offsets|
          invariant forall dy :: dy in taken <==> dy in was || exists at :: at in offsets[..j] && InColumn(at, drift) && at.dy == dy
        {
          assert offsets[..j + 1] == offsets[..j] + [offsets[j]];
          if InColumn(offsets[j], drift) { taken := taken + [offsets[j].dy]; }
        }
        assert offsets[..|offsets|] == offsets;
      }
      ClaimsNext(cards, drift, i);
    }
    assert cards[..|cards|] == cards;
  }

  lemma ClaimsNext(cards: seq<Option<Card>>, drift: real, i: nat)
    requires i < |cards|
    ensures forall dy :: Claims(cards[..i + 1], drift, dy) <==>
              Claims(cards[..i], drift, dy) || exists at :: ClaimsBy(cards[i], drift, at) && at.dy == dy
  {
    assert cards[..i + 1] == cards[..i] + [cards[i]];
    forall at | ClaimsBy(cards[i], drift, at) ensures Claims(cards[..i + 1], drift, at.dy) {
      assert cards[..i + 1][i] == cards[i];
    }
    forall dy | Claims(cards[..i], drift, dy) ensures Claims(cards[..i + 1], drift, dy) {
      var k, at :| 0 <= k < i && ClaimsBy(cards[..i][k], drift, at) && at.dy == dy;
      assert cards[..i + 1][k] == cards[..i][k];
    }
  }

  // An offset that is not in the column, or keeps clear of the slot.
  predicate KeepsClear(at: Offset, drift: real, slot: real, step: real) {
    at.bottom || at.dx >= drift || at.dx <= -drift || slot <= at.dy - step / 2.0 || slot >= at.dy + step / 2.0
  }

  // Among the cards that are not docked one is placed, or shown, in the column less
  // than half a step from the slot.
  predicate Sits(cards: seq<Option<Card>>, drift: real, slot: real, step: real) {
    exists i :: 0 <= i < |cards| && cards[i].Some? && SitsAt(cards[i].value, drift, slot, step)
  }

  predicate SitsAt(c: Card, drift: real, slot: real, step: real) {
    !c.dock && (!KeepsClear(c.pos, drift, slot, step) || (ShownElsewhere(c) && !KeepsClear(c.shown.value, drift, slot, step)))
  }

  predicate ShownElsewhere(c: Card) {
    c.shown.Some? && !(c.shown.value.dx == c.pos.dx && c.shown.value.dy == c.pos.dy)
  }

  lemma SitsIsHeld(cards: seq<Option<Card>>, taken: seq<real>, drift: real, slot: real, step: real)
    requires forall dy :: dy in taken <==> Claims(cards, drift, dy)
    ensures Sits(cards, drift, slot, step) <==> Held(taken, slot, step)
  {
    if Sits(cards, drift, slot, step) {
      var i :| 0 <= i < |cards| && cards[i].Some? && SitsAt(cards[i].value, drift, slot, step);
      var c := cards[i].value;
      var at := if KeepsClear(c.pos, drift, slot, step) then c.shown.value else c.pos;
      assert at in Offsets(c) && ClaimsBy(cards[i], drift, at);
      assert Claims(cards, drift, at.dy);
      var j :| 0 <= j < |taken| && taken[j] == at.dy;
      assert Holds(taken[j], slot, step);
    }
    if Held(taken, slot, step) {
      var j :| 0 <= j < |taken| && Holds(taken[j], slot, step);
      assert taken[j] in taken && Claims(cards, drift, taken[j]);
      var i, at :| 0 <= i < |cards| && ClaimsBy(cards[i], drift, at) && at.dy == taken[j];
      assert SitsAt(cards[i].value, drift, slot, step);
    }
  }

  // A new card gets the first slot of the column that no card sits on, placed or
  // shown, and every slot before it is sat on.
  method SpawnInColumn(cards: seq<Option<Card>>, drift: real, base: real, step: real) returns (slot: real, ghost k: nat)
    ensures slot == base + step * k as real && !Sits(cards, drift, slot, step)
    ensures forall j: nat | j < k :: Sits(cards, drift, Slot(base, step, j), step)
  {
    var taken := CascadeColumn(cards, drift);
    slot, k := CascadeSlot(taken, base, step);
    SitsIsHeld(cards, taken, drift, slot, step);
    forall j: nat | j < k ensures Sits(cards, drift, Slot(base, step, j), step) {
      SitsIsHeld(cards, taken, drift, Slot(base, step, j), step);
    }
  }

  // -------------------------------------------------------------- the bottom row

  const CORNER_INSET := 40.0
  const ROW_GAP := 8.0

  datatype Span = Span(left: real, right: real)

  // A card `width` wide at `x` comes too close to one already there.
  predicate Collides(x: real, width: real, t: Span) {
    x < t.right + ROW_GAP && x + width + ROW_GAP > t.left
  }

  predicate Blocked(taken: seq<Span>, x: real, width: real) {
    exists i :: 0 <= i < |taken| && Collides(x, width, taken[i])
  }

  ghost predicate BlockedTo(taken: seq<Span>, from: real, x: real, width: real) {
    forall y | from <= y < x :: Blocked(taken, y, width)
  }

  // Moving past a card collided with skips only blocked places.
  lemma MovePast(taken: seq<Span>, from: real, x: real, width: real, i: nat)
    requires i < |taken| && from <= x && BlockedTo(taken, from, x, width) && Collides(x, width, taken[i])
    ensures BlockedTo(taken, from, taken[i].right + ROW_GAP, width) && taken[i].right + ROW_GAP > x
  {
    forall y | from <= y < taken[i].right + ROW_GAP ensures Blocked(taken, y, width) {
      if y >= x { assert Collides(y, width, taken[i]); }
    }
  }

  // The cards `x` has not passed yet.
  function Ahead(taken: seq<Span>, x: real): nat {
    if taken == [] then 0
    else Ahead(taken[1..], x) + (if x < taken[0].right + ROW_GAP then 1 else 0)
  }

  lemma {:induction false} AheadFalls(taken: seq<Span>, x: real, y: real)
    requires x <= y
    ensures Ahead(taken, y) <= Ahead(taken, x)
    ensures forall i | 0 <= i < |taken| && x < taken[i].right + ROW_GAP <= y :: Ahead(taken, y) < Ahead(taken, x)
  {
    if taken != [] {
      AheadFalls(taken[1..], x, y);
      forall i | 0 < i < |taken| && x < taken[i].right + ROW_GAP <= y ensures Ahead(taken, y) < Ahead(taken, x) {
        assert taken[1..][i - 1] == taken[i];
      }
    }
  }

  // The walk along the row: it ends, at the leftmost place from the inset on that
  // is clear of every card.
  method WalkRow(taken: seq<Span>, width: real) returns (x: real)
    ensures x >= CORNER_INSET && !Blocked(taken, x, width) && BlockedTo(taken, CORNER_INSET, x, width)
  {
    x := CORNER_INSET;
    var moved := true;
    while moved
      invariant x >= CORNER_INSET && BlockedTo(taken, CORNER_INSET, x, width)
      invariant !moved ==> !Blocked(taken, x, width)
      decreases Ahead(taken, x), moved
    {
      moved := false;
      ghost var was := x;
      for i := 0 to |taken|
        invariant x >= was && BlockedTo(taken, CORNER_INSET, x, width)
        invariant !moved ==> x == was && forall j | 0 <= j < i :: !Collides(x, width, taken[j])
        invariant moved ==> Ahead(taken, x) < Ahead(taken, was)
      {
        if Collides(x, width, taken[i]) {
          MovePast(taken, CORNER_INSET, x, width, i);
          AheadFalls(taken, was, x);
          AheadFalls(taken, x, taken[i].right + ROW_GAP);
          x := taken[i].right + ROW_GAP;
          moved := true;
        }
      }
    }
  }

  type Name = string

  // A card of the shell: whether it is docked as a tile, and where its box is.
  datatype Panel = Panel(dock: bool, left: real, right: real)

  // The open cards, in the order they were opened; the records of all cards; and
  // the names of those that open at the bottom left.
  datatype Shell = Shell(openStack: seq<Name>, panels: map<Name, Panel>, bottomLeft: set<Name>, dockLeft: real, dockWidth: real)

  predicate AllKnown(s: Shell) { forall o | o in s.openStack :: o in s.panels }

  // Another open card that sits in the bottom row.
  predicate InRow(s: Shell, name: Name, other: Name)
    requires other in s.panels
  {
    other in s.openStack && other != name && other in s.bottomLeft && !s.panels[other].dock
  }

  function SpanOf(s: Shell, other: Name): Span
    requires other in s.panels
  {
    Span(s.panels[other].left - s.dockLeft, s.panels[other].right - s.dockLeft)
  }

  method TakenSpans(s: Shell, name: Name) returns (taken: seq<Span>)
    requires AllKnown(s)
    ensures forall t :: t in taken <==> exists o :: o in s.panels && InRow(s, name, o) && t == SpanOf(s, o)
  {
    taken := [];
    for i := 0 to |s.openStack|
      invariant forall t :: t in taken
                  <==> exists o :: o in s.openStack[..i] && o in s.panels && InRow(s, name, o) && t == SpanOf(s, o)
    {
      var other := s.openStack[i];
      assert other in s.openStack && s.openStack[..i + 1] == s.openStack[..i] + [other];
      if other != name && other in s.bottomLeft && !s.panels[other].dock {
        assert InRow(s, name, other);
        taken := taken + [SpanOf(s, other)];
      }
    }
    assert s.openStack[..|s.openStack|] == s.openStack;
  }

  // A card `width` wide at `x` from the dock's left is less than 8 from another open
  // card that opens at the bottom left and is not docked.
  ghost predicate Crowded(s: Shell, name: Name, x: real, width: real) {
    exists o :: o in s.openStack && o in s.panels && CrowdedBy(s, name, o, x, width)
  }

  predicate CrowdedBy(s: Shell, name: Name, o: Name, x: real, width: real)
    requires o in s.panels
  {
    var p, left := s.panels[o], s.dockLeft + x;
    o != name && o in s.bottomLeft && !p.dock && !(left >= p.right + 8.0 || left + width + 8.0 <= p.left)
  }

  lemma CrowdedIsBlocked(s: Shell, name: Name, taken: seq<Span>, x: real, width: real)
    requires forall t :: t in taken <==> exists o :: o in s.panels && InRow(s, name, o) && t == SpanOf(s, o)
    ensures Crowded(s, name, x, width) <==> Blocked(taken, x, width)
  {
    if Crowded(s, name, x, width) {
      var o :| o in s.openStack && o in s.panels && CrowdedBy(s, name, o, x, width);
      assert InRow(s, name, o) && SpanOf(s, o) in taken;
      assert Collides(x, width, SpanOf(s, o));
    }
    if Blocked(taken, x, width) {
      var i :| 0 <= i < |taken| && Collides(x, width, taken[i]);
      assert taken[i] in taken;
      var o :| o in s.panels && InRow(s, name, o) && taken[i] == SpanOf(s, o);
      assert CrowdedBy(s, name, o, x, width);
    }
  }

  // A card gets a place in the row, 40 in from the left or more and 40 up, exactly
  // when some place there is clear of every other card, and then the leftmost.
  method BottomLeftSpawn(s: Shell, name: Name, width: real) returns (at: Option<Offset>)
    requires AllKnown(s)
    ensures at.None? <==> forall x | 40.0 <= x <= s.dockWidth - width :: Crowded(s, name, x, width)
    ensures at.Some? ==>
      var x := s.dockWidth - width + at.value.dx;
      && at.value.dy == -40.0 && at.value.bottom
      && 40.0 <= x && x + width <= s.dockWidth
      && !Crowded(s, name, x, width) && forall y | 40.0 <= y < x :: Crowded(s, name, y, width)
  {
    var taken := TakenSpans(s, name);
    var x := WalkRow(taken, width);
    forall y ensures Crowded(s, name, y, width) <==> Blocked(taken, y, width) {
      CrowdedIsBlocked(s, name, taken, y, width);
    }
    if x + width > s.dockWidth { return None; }
    at := Some(Offset(-(s.dockWidth - width - x), -CORNER_INSET, true));
  }
}
