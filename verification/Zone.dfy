// Wall times of the display zone turned back into instants (ui-assets/zone.js,
// offsetMs, fromWall and zonedDayStartMs). A zone is any function from an
// instant to its offset; instants and wall times are in milliseconds.
module Zone {

  const DAY := 86400000

  type Offset = int -> int

  // The wall-clock fields at an instant, which know whole seconds only.
  function WallFields(zone: Offset, ms: int): int {
    ms + zone(ms) - (ms + zone(ms)) % 1000
  }

  function OffsetMs(zone: Offset, ms: int): int { WallFields(zone, ms) - ms }

  function FromWall(zone: Offset, naive: int): int {
    var before := naive - OffsetMs(zone, naive - DAY);
    var after := naive - OffsetMs(zone, naive + DAY);
    var beforeFits, afterFits := before + OffsetMs(zone, before) == naive, after + OffsetMs(zone, after) == naive;
    if beforeFits && afterFits then Min(before, after)
    else if afterFits then after
    else before
  }

  function Min(a: int, b: int): int { if a <= b then a else b }

  // Midnight of the day of a wall time, as a wall time.
  function Midnight(wall: int): int { wall - wall % DAY }

  function ZonedDayStart(zone: Offset, ms: int): int { FromWall(zone, Midnight(WallFields(zone, ms))) }

  // ------------------------------------------------------------------ the zone

  predicate WholeSeconds(zone: Offset, ms: int) { zone(ms) % 1000 == 0 }

  // Around the wall time `naive`, a day either side, the zone is `a` ahead and
  // from the instant `c` on `b`: at most one change, of whole seconds, with both
  // offsets within a day.
  ghost predicate OneChange(zone: Offset, naive: int, a: int, b: int, c: int) {
    && -DAY <= a <= DAY && -DAY <= b <= DAY && a % 1000 == 0 && b % 1000 == 0 && c % 1000 == 0
    && forall t | naive - DAY <= t <= naive + DAY :: zone(t) == if t < c then a else b
  }

  // The wall time of an instant.
  function Wall(zone: Offset, t: int): int { t + zone(t) }

  lemma OffsetIs(zone: Offset, naive: int, a: int, b: int, c: int, t: int)
    requires OneChange(zone, naive, a, b, c) && t % 1000 == 0 && naive - DAY <= t <= naive + DAY
    ensures OffsetMs(zone, t) == zone(t)
  {
  }

  // Every instant that reads `naive` is one of the two candidates.
  lemma Candidates(zone: Offset, naive: int, a: int, b: int, c: int, t: int)
    requires OneChange(zone, naive, a, b, c) && -DAY <= zone(t) <= DAY
    ensures Wall(zone, t) == naive <==> (t == naive - a && t < c) || (t == naive - b && t >= c)
  {
  }

  // Which of the candidates is taken.
  lemma Fits(zone: Offset, naive: int, a: int, b: int, c: int)
    requires OneChange(zone, naive, a, b, c) && naive % 1000 == 0
    ensures var first, last := zone(naive - DAY), zone(naive + DAY);
            && FromWall(zone, naive) ==
                 (if first == a && naive - a < c then
                    (if last == b && naive - b >= c then Min(naive - a, naive - b) else naive - a)
                  else if last == b && naive - b >= c then naive - b
                  else naive - first)
  {
    OffsetIs(zone, naive, a, b, c, naive - DAY);
    OffsetIs(zone, naive, a, b, c, naive + DAY);
    OffsetIs(zone, naive, a, b, c, naive - a);
    OffsetIs(zone, naive, a, b, c, naive - b);
  }

  // The earliest instant that reads `naive` in a zone.
  ghost predicate IsFirst(zone: Offset, naive: int, t: int) {
    Wall(zone, t) == naive && forall u | Wall(zone, u) == naive :: t <= u
  }

  ghost predicate Bounded(zone: Offset) { forall t :: -DAY <= zone(t) <= DAY }

  // `naive` is skipped by the zone: the change from `a` to `b` at `c` jumps over it.
  predicate Skipped(naive: int, a: int, b: int, c: int) { c + a <= naive < c + b }

  // A wall time the zone shows turns back into the first instant that shows it;
  // one it skips into an instant that reads later by exactly the gap.
  lemma FromWallInverts(zone: Offset, naive: int, a: int, b: int, c: int)
    requires Bounded(zone) && OneChange(zone, naive, a, b, c) && naive % 1000 == 0
    ensures !Skipped(naive, a, b, c) ==> IsFirst(zone, naive, FromWall(zone, naive))
    ensures Skipped(naive, a, b, c) ==> forall t :: Wall(zone, t) != naive
    ensures Skipped(naive, a, b, c) ==> Wall(zone, FromWall(zone, naive)) == naive + (b - a)
  {
    Fits(zone, naive, a, b, c);
    forall t ensures Wall(zone, t) == naive <==> (t == naive - a && t < c) || (t == naive - b && t >= c) {
      Candidates(zone, naive, a, b, c, t);
    }
  }

  // ------------------------------------------------------------------ midnight

  // The start of a day is after the instant asked about exactly when the day's
  // midnight falls strictly inside a gap, which began the evening before, and the
  // instant lies between the change and where the skipped midnight is moved to.
  lemma DayStartIsAfter(zone: Offset, ms: int, a: int, b: int, c: int)
    requires Bounded(zone) && WholeSeconds(zone, ms)
    requires OneChange(zone, Midnight(WallFields(zone, ms)), a, b, c)
    ensures var midnight := Midnight(WallFields(zone, ms));
            ZonedDayStart(zone, ms) > ms <==> Skipped(midnight, a, b, c) && c <= ms < midnight - a
  {
    var midnight := Midnight(WallFields(zone, ms));
    MidnightBelow(WallFields(zone, ms));
    Fits(zone, midnight, a, b, c);
  }

  lemma MidnightBelow(wall: int)
    ensures Midnight(wall) <= wall < Midnight(wall) + DAY && Midnight(wall) % 1000 == 0 && Midnight(wall) % DAY == 0
  {
    var days := wall / DAY;
    assert Midnight(wall) == days * DAY;
    assert days * DAY == days * 86400 * 1000;
  }

  // So it is never after the instant on a day whose midnight the zone shows, nor
  // when a gap begins at midnight itself.
  lemma DayStartIsNotAfter(zone: Offset, ms: int, a: int, b: int, c: int)
    requires Bounded(zone) && WholeSeconds(zone, ms)
    requires OneChange(zone, Midnight(WallFields(zone, ms)), a, b, c)
    requires var midnight := Midnight(WallFields(zone, ms)); !Skipped(midnight, a, b, c) || c + a == midnight
    ensures ZonedDayStart(zone, ms) <= ms
  {
    DayStartIsAfter(zone, ms, a, b, c);
  }

  // A clock that goes from 23:30 to 00:30: a minute into the new day its start is
  // still to come.
  lemma GapOverMidnight() returns (zone: Offset, ms: int)
    ensures Bounded(zone) && ZonedDayStart(zone, ms) > ms
  {
    var c := 20 * DAY - 1800000;
    zone := t => if t < c then 0 else 3600000;
    ms := c + 60000;
    var wall := WallFields(zone, ms);
    assert wall == 20 * DAY + 1860000;
    assert Midnight(wall) == 20 * DAY;
    assert OneChange(zone, 20 * DAY, 0, 3600000, c);
    DayStartIsAfter(zone, ms, 0, 3600000, c);
  }
}
