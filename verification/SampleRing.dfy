// The sample rings of the metrics panel (ui-assets/metrics-store.js): one slot a
// second, addressed by the second's remainder, each slot remembering the second
// it holds. Against an unbounded record of the last value of every second.
module SampleRing {
  import opened Wrappers

  const SPARK_LEN := 900

  // A sample with its server time, if it has a usable one, and its value; a
  // missing, null or NaN value is None.
  datatype Sample = Sample(time: Option<real>, value: Option<real>)

  datatype Slot = Empty | Holds(second: int, value: Option<real>)

  datatype Ring = Ring(slots: seq<Slot>, maxSec: Option<int>)

  // ----------------------------------------------------------------- the slots

  // The remainder of a division that truncates toward zero.
  function JsRemainder(a: int, b: int): int
    requires b > 0
  {
    if a >= 0 then a % b else -((-a) % b)
  }

  function SlotOf(s: int): (i: int)
    ensures 0 <= i < SPARK_LEN
  {
    JsRemainder(JsRemainder(s, SPARK_LEN) + SPARK_LEN, SPARK_LEN)
  }

  // Two seconds share a slot exactly when they are whole rings apart.
  lemma SharedSlot(s: int, q: int)
    ensures SlotOf(s) == SlotOf(q) <==> (s - q) % SPARK_LEN == 0
  {
    SlotIsRemainder(s);
    SlotIsRemainder(q);
  }

  lemma SlotIsRemainder(s: int)
    ensures SlotOf(s) == s % SPARK_LEN
  {
    if s < 0 {
      assert (-s) % SPARK_LEN == 0 || s % SPARK_LEN == SPARK_LEN - (-s) % SPARK_LEN;
    }
  }

  lemma RingsApart(s: int, q: int)
    requires SlotOf(s) == SlotOf(q) && s != q
    ensures s - q >= SPARK_LEN || q - s >= SPARK_LEN
  {
    SharedSlot(s, q);
  }

  // ---------------------------------------------------------------- the record

  function Later(a: Option<int>, s: int): Option<int> {
    if a.None? || s > a.value then Some(s) else a
  }

  function Cleared(): (r: Ring)
    ensures |r.slots| == SPARK_LEN && forall i | 0 <= i < SPARK_LEN :: r.slots[i] == Empty
  {
    Ring(seq(SPARK_LEN, i => Empty), None)
  }

  function Placed(r: Ring, x: Sample): Ring
    requires |r.slots| == SPARK_LEN
  {
    if x.time.None? then r
    else
      var s := x.time.value.Floor;
      Ring(r.slots[SlotOf(s) := Holds(s, x.value)], Later(r.maxSec, s))
  }

  // The ring after the samples have come in, in order.
  function After(h: seq<Sample>): (r: Ring)
    ensures |r.slots| == SPARK_LEN
  {
    if h == [] then Cleared() else Placed(After(h[..|h| - 1]), h[|h| - 1])
  }

  function Read(r: Ring, s: int): Option<real>
    requires |r.slots| == SPARK_LEN
  {
    var slot := r.slots[SlotOf(s)];
    if slot.Holds? && slot.second == s then slot.value else None
  }

  predicate IsAt(x: Sample, s: int) { x.time.Some? && x.time.value.Floor == s }

  predicate IsIn(x: Sample, i: int) { x.time.Some? && SlotOf(x.time.value.Floor) == i }

  // The last value of a second.
  function Lookup(h: seq<Sample>, s: int): Option<real> {
    if h == [] then None
    else if IsAt(h[|h| - 1], s) then h[|h| - 1].value
    else Lookup(h[..|h| - 1], s)
  }

  function Newest(h: seq<Sample>): Option<int> {
    if h == [] then None
    else
      var x, m := h[|h| - 1], Newest(h[..|h| - 1]);
      if x.time.Some? then Later(m, x.time.value.Floor) else m
  }

  // No sample came 900 seconds or more behind the newest second before it.
  predicate Timely(h: seq<Sample>) {
    h != [] ==>
      var x, m := h[|h| - 1], Newest(h[..|h| - 1]);
      && Timely(h[..|h| - 1])
      && (x.time.Some? && m.Some? ==> x.time.value.Floor > m.value - SPARK_LEN)
  }

  lemma {:induction false} NewestIsMax(h: seq<Sample>)
    ensures After(h).maxSec == Newest(h)
    ensures forall s | Lookup(h, s).Some? :: Newest(h).Some? && s <= Newest(h).value
  {
    if h != [] { NewestIsMax(h[..|h| - 1]); }
  }

  // A second reads as its own last value or as nothing, never as another's.
  lemma {:induction false} NeverMisread(h: seq<Sample>, s: int)
    ensures Read(After(h), s).Some? ==> Read(After(h), s) == Lookup(h, s)
  {
    if h != [] { NeverMisread(h[..|h| - 1], s); }
  }

  // When the samples are timely the newest 900 seconds, and all later ones, read
  // exactly as the record does.
  lemma {:induction false} NewestReadAsRecorded(h: seq<Sample>, s: int)
    requires Timely(h) && (Newest(h).Some? ==> s > Newest(h).value - SPARK_LEN)
    ensures Read(After(h), s) == Lookup(h, s)
  {
    if h != [] {
      var x, front := h[|h| - 1], h[..|h| - 1];
      NewestReadAsRecorded(front, s);
      if x.time.Some? && SlotOf(x.time.value.Floor) == SlotOf(s) && !IsAt(x, s) {
        RingsApart(s, x.time.value.Floor);
        NewestIsMax(front);
      }
    }
  }

  // One late sample is enough to lose a newer second: any that shares its slot.
  lemma LateSampleHides(h: seq<Sample>, x: Sample, s: int)
    requires IsIn(x, SlotOf(s)) && !IsAt(x, s)
    ensures Lookup(h + [x], s) == Lookup(h, s) && Read(After(h + [x]), s) == None
    ensures Newest(h).Some? && x.time.value.Floor < s <= Newest(h).value ==> !Timely(h + [x])
  {
    assert (h + [x])[..|h|] == h;
    RingsApart(s, x.time.value.Floor);
    NewestIsMax(h);
  }

  // ---------------------------------------------------------------- the columns

  datatype Columns = Columns(xs: seq<int>, ys: seq<Option<real>>)

  function Width(windowS: nat): nat { if windowS < SPARK_LEN then windowS else SPARK_LEN }

  function Series(r: Ring, windowS: nat, endSec: Option<int>): Columns
    requires |r.slots| == SPARK_LEN
  {
    if r.maxSec.None? then Columns([], [])
    else
      var end, n := (if endSec.Some? then endSec.value else r.maxSec.value), Width(windowS);
      Columns(seq(n, k => end - (n - 1 - k)), seq(n, k => Read(r, end - (n - 1 - k))))
  }

  // Reads of two streams at one anchor and window have the same consecutive x
  // columns, ending at the anchor, unless a stream has no sample at all.
  lemma SharedColumns(h: seq<Sample>, g: seq<Sample>, windowS: nat, end: int)
    requires Newest(h).Some? && Newest(g).Some?
    ensures var a, b := Series(After(h), windowS, Some(end)), Series(After(g), windowS, Some(end));
            && a.xs == b.xs && |a.xs| == |a.ys| == |b.ys| == Width(windowS)
            && (forall k | 0 < k < |a.xs| :: a.xs[k] == a.xs[k - 1] + 1)
            && (a.xs != [] ==> a.xs[|a.xs| - 1] == end)
  {
    NewestIsMax(h);
    NewestIsMax(g);
  }

  // Without an anchor a stream's columns end at its own newest second; without a
  // sample there are none.
  lemma OwnColumns(h: seq<Sample>, windowS: nat)
    ensures var c := Series(After(h), windowS, None);
            && (Newest(h).None? ==> c.xs == [] && c.ys == [])
            && (Newest(h).Some? ==> |c.xs| == |c.ys| == Width(windowS)
                                    && forall k | 0 <= k < |c.xs| :: c.xs[k] == Newest(h).value - (|c.xs| - 1 - k))
  {
    NewestIsMax(h);
  }

  // With an anchor or without: a column shows its own second's last value or
  // nothing.
  lemma ColumnsAreOwn(h: seq<Sample>, windowS: nat, end: Option<int>)
    ensures var c := Series(After(h), windowS, end);
            |c.xs| == |c.ys| && forall k | 0 <= k < |c.xs| && c.ys[k].Some? :: c.ys[k] == Lookup(h, c.xs[k])
  {
    var c := Series(After(h), windowS, end);
    forall k | 0 <= k < |c.xs| && c.ys[k].Some? ensures c.ys[k] == Lookup(h, c.xs[k]) { NeverMisread(h, c.xs[k]); }
  }

  // A chart of timely samples anchored at the newest second or later shows the
  // record, column by column.
  lemma ChartShowsRecord(h: seq<Sample>, windowS: nat, end: int)
    requires Timely(h) && Newest(h).Some? && end >= Newest(h).value
    ensures var c := Series(After(h), windowS, Some(end));
            forall k | 0 <= k < |c.xs| :: c.ys[k] == Lookup(h, c.xs[k])
  {
    NewestIsMax(h);
    var c := Series(After(h), windowS, Some(end));
    forall k | 0 <= k < |c.xs| ensures c.ys[k] == Lookup(h, c.xs[k]) {
      NewestReadAsRecorded(h, c.xs[k]);
    }
  }

  // ------------------------------------------------------------------ backfill

  function Recent(h: seq<Sample>): seq<Sample> {
    if |h| <= SPARK_LEN then h else h[|h| - SPARK_LEN..]
  }

  // What a slot holds is the last sample that came to it.
  function LastIn(h: seq<Sample>, i: int): Slot {
    if h == [] then Empty
    else if IsIn(h[|h| - 1], i) then Holds(h[|h| - 1].time.value.Floor, h[|h| - 1].value)
    else LastIn(h[..|h| - 1], i)
  }

  lemma {:induction false} SlotHoldsLast(h: seq<Sample>, i: int)
    requires 0 <= i < SPARK_LEN
    ensures After(h).slots[i] == LastIn(h, i)
  {
    if h != [] { SlotHoldsLast(h[..|h| - 1], i); }
  }

  lemma {:induction false} LastOfBoth(a: seq<Sample>, b: seq<Sample>, i: int)
    ensures LastIn(a + b, i) == if LastIn(b, i).Empty? then LastIn(a, i) else LastIn(b, i)
  {
    if b == [] {
      assert a + b == a;
    } else {
      assert (a + b)[..|a + b| - 1] == a + b[..|b| - 1];
      LastOfBoth(a, b[..|b| - 1], i);
    }
  }

  // A slot that the recent samples leave alone and that held a value before.
  predicate Missed(h: seq<Sample>, i: int) {
    LastIn(Recent(h), i).Empty? && LastIn(h, i).Holds? && LastIn(h, i).value.Some?
  }

  ghost predicate NoneMissed(h: seq<Sample>) { forall i | 0 <= i < SPARK_LEN :: !Missed(h, i) }

  predicate SameRead(h: seq<Sample>, s: int) { Read(After(Recent(h)), s) == Read(After(h), s) }

  ghost predicate ReadsAsLive(h: seq<Sample>) { forall s :: SameRead(h, s) }

  // A backfill reads as if every sample had come live, at every second, exactly
  // when none of the older samples it leaves out is still in its slot.
  lemma BackfillIsLive(h: seq<Sample>)
    ensures ReadsAsLive(h) <==> NoneMissed(h)
  {
    if NoneMissed(h) {
      forall s ensures SameRead(h, s) {
        ReadsLast(h, s);
        assert !Missed(h, SlotOf(s));
      }
    }
    if ReadsAsLive(h) {
      forall i | 0 <= i < SPARK_LEN ensures !Missed(h, i) { LiveIsKept(h, i); }
    }
  }

  lemma LiveIsKept(h: seq<Sample>, i: int)
    requires 0 <= i < SPARK_LEN && ReadsAsLive(h)
    ensures !Missed(h, i)
  {
    if LastIn(h, i).Holds? {
      LastIsIn(h, i);
      ReadsLast(h, LastIn(h, i).second);
      assert SameRead(h, LastIn(h, i).second);
    }
  }

  // Both reads of a second, by what was last in its slot.
  ghost predicate SlotsRead(h: seq<Sample>, s: int) {
    var recent, all := LastIn(Recent(h), SlotOf(s)), LastIn(h, SlotOf(s));
    && Read(After(h), s) == (if all.Holds? && all.second == s then all.value else None)
    && Read(After(Recent(h)), s) == (if recent.Holds? && recent.second == s then recent.value else None)
    && (recent.Holds? ==> recent == all)
  }

  lemma ReadsLast(h: seq<Sample>, s: int)
    ensures SlotsRead(h, s)
  {
    SlotHoldsLast(h, SlotOf(s));
    SlotHoldsLast(Recent(h), SlotOf(s));
    if |h| > SPARK_LEN {
      assert h == h[..|h| - SPARK_LEN] + Recent(h);
      LastOfBoth(h[..|h| - SPARK_LEN], Recent(h), SlotOf(s));
    }
  }

  lemma {:induction false} LastIsIn(h: seq<Sample>, i: int)
    ensures LastIn(h, i).Holds? ==> SlotOf(LastIn(h, i).second) == i
  {
    if h != [] { LastIsIn(h[..|h| - 1], i); }
  }

  // One sample a second at most, in order of time.
  ghost predicate Increasing(h: seq<Sample>) {
    && (forall i | 0 <= i < |h| :: h[i].time.Some?)
    && forall i, j | 0 <= i < j < |h| :: h[i].time.value.Floor < h[j].time.value.Floor
  }

  // A history of 901 samples, at the seconds 0 to 899 and then 901.
  function SkipsOne(): (h: seq<Sample>)
    ensures |h| == SPARK_LEN + 1 && Increasing(h)
  {
    seq(SPARK_LEN + 1, k => Sample(Some((if k < SPARK_LEN then k else k + 1) as real), Some(1.0)))
  }

  // Its backfill is not what came live: live, second 0 is still in its slot, which
  // nothing since has come to, and the backfill leaves it out.
  lemma BackfillLosesOldest()
    ensures Read(After(SkipsOne()), 0) == Some(1.0) && Read(After(Recent(SkipsOne())), 0) == None
    ensures !ReadsAsLive(SkipsOne())
  {
    var h := SkipsOne();
    var oldest, recent := h[..1], h[1..];
    assert h == oldest + recent;
    forall k | 0 <= k < |recent| ensures !IsIn(recent[k], 0) { SlotIsRemainder(recent[k].time.value.Floor); }
    NoneIn(recent, 0);
    LastOfBoth(oldest, recent, 0);
    assert LastIn(oldest, 0) == Holds(0, Some(1.0)) by { SlotIsRemainder(0); }
    ReadsLast(h, 0);
    assert !SameRead(h, 0);
  }

  lemma {:induction false} NoneIn(h: seq<Sample>, i: int)
    requires forall k | 0 <= k < |h| :: !IsIn(h[k], i)
    ensures LastIn(h, i) == Empty
  {
    if h != [] { NoneIn(h[..|h| - 1], i); }
  }

  // For such a history the two agree on the newest 900 seconds and on all later
  // ones, so on every chart anchored at the newest second or past it.
  lemma BackfillShowsNewest(h: seq<Sample>, s: int)
    requires Increasing(h) && h != [] && s > h[|h| - 1].time.value.Floor - SPARK_LEN
    ensures Newest(Recent(h)) == Newest(h) == Some(h[|h| - 1].time.value.Floor)
    ensures Read(After(Recent(h)), s) == Read(After(h), s)
  {
    IncreasingIsTimely(h);
    IncreasingIsTimely(Recent(h));
    assert Recent(h)[|Recent(h)| - 1] == h[|h| - 1];
    NewestReadAsRecorded(h, s);
    NewestReadAsRecorded(Recent(h), s);
    RecentLookup(h, s);
  }

  lemma RecentLookup(h: seq<Sample>, s: int)
    requires Increasing(h) && h != [] && s > h[|h| - 1].time.value.Floor - SPARK_LEN
    ensures Lookup(Recent(h), s) == Lookup(h, s)
  {
    if |h| > SPARK_LEN {
      var cut := |h| - SPARK_LEN;
      assert h == h[..cut] + Recent(h);
      SecondsAhead(h, cut - 1);
      OlderAreAway(h, cut, s);
      LookupBoth(h[..cut], Recent(h), s);
    }
  }

  lemma {:induction false} IncreasingIsTimely(h: seq<Sample>)
    requires Increasing(h)
    ensures Timely(h)
    ensures h != [] ==> Newest(h) == Some(h[|h| - 1].time.value.Floor)
  {
    if h != [] { IncreasingIsTimely(h[..|h| - 1]); }
  }

  lemma {:induction false} SecondsAhead(h: seq<Sample>, i: nat)
    requires Increasing(h) && i < |h|
    ensures h[|h| - 1].time.value.Floor - h[i].time.value.Floor >= |h| - 1 - i
    decreases |h| - i
  {
    if i < |h| - 1 { SecondsAhead(h, i + 1); }
  }

  lemma {:induction false} OlderAreAway(h: seq<Sample>, cut: nat, s: int)
    requires Increasing(h) && 0 < cut <= |h| && s > h[cut - 1].time.value.Floor
    ensures Lookup(h[..cut], s) == None
  {
    assert h[..cut][..cut - 1] == h[..cut - 1];
    if cut > 1 { OlderAreAway(h, cut - 1, s); }
  }

  lemma {:induction false} LookupBoth(a: seq<Sample>, b: seq<Sample>, s: int)
    requires Lookup(a, s) == None
    ensures Lookup(a + b, s) == Lookup(b, s)
  {
    if b == [] {
      assert a + b == a;
    } else {
      assert (a + b)[..|a + b| - 1] == a + b[..|b| - 1];
      LookupBoth(a, b[..|b| - 1], s);
    }
  }

  // ---------------------------------------------------------------- the buffer

  class Buffer {
    const values: array<Option<real>>
    const sec: array<Option<int>>
    var maxSec: Option<int>

    constructor ()
      ensures Valid() && View() == Cleared() && fresh(values) && fresh(sec)
    {
      values := new Option<real>[SPARK_LEN](_ => None);
      sec := new Option<int>[SPARK_LEN](_ => None);
      maxSec := None;
      new;
      assert View().slots == Cleared().slots;
    }

    ghost predicate Valid() {
      values.Length == SPARK_LEN && sec.Length == SPARK_LEN
    }

    ghost function View(): (r: Ring)
      requires Valid()
      reads this, values, sec
      ensures |r.slots| == SPARK_LEN
    {
      Ring(seq(SPARK_LEN, i requires 0 <= i < SPARK_LEN reads values, sec =>
             if sec[i].Some? then Holds(sec[i].value, values[i]) else Empty),
           maxSec)
    }

    method Place(x: Sample) returns (ok: bool)
      requires Valid()
      modifies this, values, sec
      ensures View() == Placed(old(View()), x) && ok == x.time.Some?
    {
      if x.time.None? { return false; }
      var s := x.time.value.Floor;
      var i := SlotOf(s);
      values[i] := x.value;
      sec[i] := Some(s);
      maxSec := if maxSec.None? then Some(s) else if s > maxSec.value then Some(s) else maxSec;
      ok := true;
    }

    method ReadSeries(windowS: nat, endSec: Option<int>) returns (xs: seq<int>, ys: seq<Option<real>>)
      requires Valid()
      ensures Columns(xs, ys) == Series(View(), windowS, endSec)
    {
      xs, ys := [], [];
      if maxSec.None? { return; }
      var end := if endSec.Some? then endSec.value else maxSec.value;
      var n := Width(windowS);
      var k := 0;
      while k < n
        invariant k <= n && |xs| == |ys| == k
        invariant forall j | 0 <= j < k :: xs[j] == end - (n - 1 - j) && ys[j] == Read(View(), end - (n - 1 - j))
      {
        var s := end - (n - 1 - k);
        var i := SlotOf(s);
        var y: Option<real> := if sec[i] == Some(s) then values[i] else None;
        xs := xs + [s];
        ys := ys + [y];
        k := k + 1;
      }
    }

    // The stream's part of a backfill: the ring is cleared and filled again from
    // the end of the history.
    method Backfill(h: seq<Sample>)
      requires Valid()
      modifies this, values, sec
      ensures View() == After(Recent(h))
    {
      forall i | 0 <= i < SPARK_LEN { values[i] := None; }
      forall i | 0 <= i < SPARK_LEN { sec[i] := None; }
      maxSec := None;
      var recent := Recent(h);
      assert recent[..0] == [] && View().slots == Cleared().slots;
      for k := 0 to |recent|
        invariant View() == After(recent[..k])
      {
        assert recent[..k + 1][..k] == recent[..k];
        var _ := Place(recent[k]);
      }
      assert recent[..|recent|] == recent;
    }
  }

  // The newest second any of the streams holds.
  method LatestSecond(newest: seq<Option<int>>) returns (max: Option<int>)
    ensures max.None? <==> forall m | m in newest :: m.None?
    ensures max.Some? ==> max in newest && forall m | m in newest && m.Some? :: m.value <= max.value
  {
    max := None;
    for k := 0 to |newest|
      invariant max.None? <==> forall m | m in newest[..k] :: m.None?
      invariant max.Some? ==> max in newest[..k] && forall m | m in newest[..k] && m.Some? :: m.value <= max.value
    {
      assert newest[..k + 1] == newest[..k] + [newest[k]];
      if newest[k].Some? && (max.None? || newest[k].value > max.value) { max := newest[k]; }
    }
    assert newest[..|newest|] == newest;
  }
}
