// The two coalescing timers behind the topology canvas (ui-assets/app.js): a
// burst throttle that turns messages into refreshes, and a timer that turns
// refreshes into backfills of the metric charts. Times are in milliseconds; a
// timer never fires early, and at most `late` after it is due.
module Throttle {

  const BURST := 300
  const SETTLE := 800

  datatype Timer = Idle | Due(at: int)

  // A refresh, and whether it is the one a burst ends with.
  datatype Refresh = Refresh(at: int, trailing: bool)

  // The handles and flags, and when things have happened so far.
  datatype State = State(
    now: int,
    backfill: Timer, backfillPending: bool,
    burst: Timer, burstPending: bool,
    messages: seq<int>, refreshes: seq<Refresh>, backfills: seq<int>)

  datatype Event = Message | BurstFires | BackfillFires

  // onTopologyChanged: a refresh at once, and a backfill once things have settled.
  function Changed(s: State, trailing: bool): State {
    var t := s.(refreshes := s.refreshes + [Refresh(s.now, trailing)]);
    if s.backfill.Idle? then t.(backfill := Due(s.now + SETTLE)) else t.(backfillPending := true)
  }

  function OnMessage(s: State): State {
    var t := s.(messages := s.messages + [s.now]);
    if s.burst.Due? then t.(burstPending := true) else Changed(t, false).(burst := Due(s.now + BURST))
  }

  function OnBurst(s: State): State {
    var t := s.(burst := Idle);
    if s.burstPending then Changed(t.(burstPending := false), true) else t
  }

  function OnBackfill(s: State): State {
    var t := s.(backfill := Idle, backfills := s.backfills + [s.now]);
    if s.backfillPending then t.(backfillPending := false, backfill := Due(s.now + SETTLE)) else t
  }

  // Time may go on to `now`: not back, and with no timer left waiting more than
  // `late`.
  predicate CanWait(s: State, now: int, late: nat) {
    && now >= s.now
    && (s.burst.Due? ==> now <= s.burst.at + late)
    && (s.backfill.Due? ==> now <= s.backfill.at + late)
  }

  predicate Can(s: State, e: Event) {
    && (e.BurstFires? ==> s.burst.Due? && s.now >= s.burst.at)
    && (e.BackfillFires? ==> s.backfill.Due? && s.now >= s.backfill.at)
  }

  function Next(s: State, e: Event): State {
    match e
    case Message => OnMessage(s)
    case BurstFires => OnBurst(s)
    case BackfillFires => OnBackfill(s)
  }

  // ---------------------------------------------------------------- invariants

  ghost predicate BackfillWithin(s: State, from: int, to: int) {
    exists i :: 0 <= i < |s.backfills| && from <= s.backfills[i] <= to
  }

  ghost predicate RefreshWithin(s: State, from: int, to: int) {
    exists i :: 0 <= i < |s.refreshes| && from <= s.refreshes[i].at <= to
  }

  // A refresh at `t` has its backfill, or one is armed that comes late enough, or
  // the timer is armed and will be armed again.
  ghost predicate Backfilled(s: State, t: int, late: nat) {
    || BackfillWithin(s, t + SETTLE, t + 2 * SETTLE + 2 * late)
    || (s.backfill.Due? && t + SETTLE <= s.backfill.at <= t + 2 * SETTLE + late)
    || (s.backfill.Due? && s.backfillPending && t <= s.backfill.at + late && s.backfill.at <= t + SETTLE)
  }

  // A message at `t` has its refresh, or one is on its way.
  ghost predicate Refreshed(s: State, t: int, late: nat) {
    || RefreshWithin(s, t, t + BURST + late)
    || (s.burst.Due? && s.burstPending && t <= s.burst.at + late && s.burst.at <= t + BURST)
  }

  ghost predicate TimersSound(s: State, late: nat) {
    && (s.burst.Due? ==> s.now - late <= s.burst.at <= s.now + BURST)
    && (s.burst.Idle? ==> !s.burstPending)
    && (s.backfill.Due? ==> s.now - late <= s.backfill.at <= s.now + SETTLE)
    && (s.backfill.Idle? ==> !s.backfillPending)
  }

  // Backfills are a settling time apart, and so is the next from each before it.
  ghost predicate BackfillsSpread(s: State) {
    && (forall i | 0 <= i < |s.backfills| :: s.backfills[i] <= s.now)
    && (forall i, j | 0 <= i < j < |s.backfills| :: s.backfills[j] - s.backfills[i] >= SETTLE)
    && (s.backfill.Due? ==> forall i | 0 <= i < |s.backfills| :: s.backfill.at - s.backfills[i] >= SETTLE)
  }

  // Two refreshes are a burst apart, unless they are neighbours and the earlier
  // one ended a burst.
  predicate Apart(rs: seq<Refresh>, i: nat, j: nat)
    requires i < j < |rs|
  {
    rs[j].at - rs[i].at >= BURST || (j == i + 1 && rs[i].trailing && !rs[j].trailing)
  }

  ghost predicate RefreshesSpread(s: State) {
    var rs := s.refreshes;
    && (forall i | 0 <= i < |rs| :: rs[i].at <= s.now)
    && (forall i, j | 0 <= i < j < |rs| :: Apart(rs, i, j))
    && (s.burst.Due? ==> forall i | 0 <= i < |rs| :: s.burst.at - rs[i].at >= BURST)
    && (s.burst.Idle? ==> forall i | 0 <= i < |rs| :: s.now - rs[i].at >= BURST || (i == |rs| - 1 && rs[i].trailing))
  }

  ghost predicate Inv(s: State, late: nat) {
    && TimersSound(s, late) && BackfillsSpread(s) && RefreshesSpread(s)
    && (forall i | 0 <= i < |s.refreshes| :: Backfilled(s, s.refreshes[i].at, late))
    && (forall i | 0 <= i < |s.messages| :: s.messages[i] <= s.now && Refreshed(s, s.messages[i], late))
  }

  function Start(now: int): State { State(now, Idle, false, Idle, false, [], [], []) }

  lemma StartHolds(now: int, late: nat)
    ensures Inv(Start(now), late)
  {
  }

  lemma WaitKeeps(s: State, now: int, late: nat)
    requires Inv(s, late) && CanWait(s, now, late)
    ensures Inv(s.(now := now), late)
  {
    var t := s.(now := now);
    forall i | 0 <= i < |t.refreshes| ensures Backfilled(t, t.refreshes[i].at, late) {
      assert Backfilled(s, s.refreshes[i].at, late);
    }
    forall i | 0 <= i < |t.messages| ensures Refreshed(t, t.messages[i], late) {
      assert Refreshed(s, s.messages[i], late);
    }
  }

  // What a refresh leaves of the burst side to its caller.
  ghost predicate ChangedOk(s: State, trailing: bool, t: State, late: nat) {
    && t == Changed(s, trailing) && TimersSound(t, late) && BackfillsSpread(t)
    && (forall i | 0 <= i < |t.refreshes| :: Backfilled(t, t.refreshes[i].at, late))
    && (forall x: int :: Refreshed(s, x, late) ==> Refreshed(t, x, late))
    && Refreshed(t, s.now, late)
  }

  lemma ChangedKeeps(s: State, trailing: bool, late: nat)
    requires TimersSound(s, late) && BackfillsSpread(s)
    requires forall i | 0 <= i < |s.refreshes| :: Backfilled(s, s.refreshes[i].at, late)
    ensures ChangedOk(s, trailing, Changed(s, trailing), late)
  {
    var t := Changed(s, trailing);
    forall i | 0 <= i < |t.refreshes| ensures Backfilled(t, t.refreshes[i].at, late) {
      if i < |s.refreshes| {
        assert t.refreshes[i] == s.refreshes[i] && Backfilled(s, s.refreshes[i].at, late);
      }
    }
    forall x: int | Refreshed(s, x, late) ensures Refreshed(t, x, late) {
      if RefreshWithin(s, x, x + BURST + late) {
        var i :| 0 <= i < |s.refreshes| && x <= s.refreshes[i].at <= x + BURST + late;
        assert t.refreshes[i] == s.refreshes[i];
      }
    }
    assert t.refreshes[|s.refreshes|].at == s.now;
  }

  lemma SpreadMore(rs: seq<Refresh>, r: Refresh)
    requires forall i, j | 0 <= i < j < |rs| :: Apart(rs, i, j)
    requires forall i | 0 <= i < |rs| ::
      r.at - rs[i].at >= BURST || (i == |rs| - 1 && rs[i].trailing && !r.trailing)
    ensures forall i, j | 0 <= i < j < |rs| + 1 :: Apart(rs + [r], i, j)
  {
    forall i, j | 0 <= i < j < |rs| + 1 ensures Apart(rs + [r], i, j) {
      if j < |rs| { assert Apart(rs, i, j); }
    }
  }

  lemma MessageKeeps(s: State, late: nat)
    requires Inv(s, late)
    ensures Inv(OnMessage(s), late)
  {
    if s.burst.Due? { MessageWaits(s, late); } else { MessageRefreshes(s, late); }
  }

  lemma MessageWaits(s: State, late: nat)
    requires Inv(s, late) && s.burst.Due?
    ensures Inv(OnMessage(s), late)
  {
    var t := OnMessage(s);
    forall i | 0 <= i < |t.refreshes| ensures Backfilled(t, t.refreshes[i].at, late) {
      assert Backfilled(s, s.refreshes[i].at, late);
    }
    forall i | 0 <= i < |t.messages| ensures Refreshed(t, t.messages[i], late) {
      if i < |s.messages| { assert t.messages[i] == s.messages[i] && Refreshed(s, s.messages[i], late); }
    }
  }

  lemma MessageRefreshes(s: State, late: nat)
    requires Inv(s, late) && s.burst.Idle?
    ensures Inv(OnMessage(s), late)
  {
    var t := OnMessage(s);
    var u := s.(messages := s.messages + [s.now]);
    forall i | 0 <= i < |u.refreshes| ensures Backfilled(u, u.refreshes[i].at, late) {
      assert Backfilled(s, s.refreshes[i].at, late);
    }
    ChangedKeeps(u, false, late);
    ArmBurst(Changed(u, false), t, late);
    SpreadMore(s.refreshes, Refresh(s.now, false));
    forall i | 0 <= i < |t.messages| ensures Refreshed(t, t.messages[i], late) { MessageServed(s, i, late); }
  }

  // A first message's refresh serves it at once.
  lemma MessageServed(s: State, i: nat, late: nat)
    requires Inv(s, late) && s.burst.Idle? && i <= |s.messages|
    ensures Refreshed(OnMessage(s), OnMessage(s).messages[i], late)
  {
    var t := OnMessage(s);
    assert t.refreshes[|s.refreshes|].at == s.now;
    if i < |s.messages| {
      assert Refreshed(s, s.messages[i], late);
      var k :| 0 <= k < |s.refreshes| && s.messages[i] <= s.refreshes[k].at <= s.messages[i] + BURST + late;
      assert t.refreshes[k] == s.refreshes[k];
    }
  }

  // The burst timer is nothing to the backfills.
  lemma ArmBurst(s: State, t: State, late: nat)
    requires forall i | 0 <= i < |s.refreshes| :: Backfilled(s, s.refreshes[i].at, late)
    requires t == s.(burst := t.burst)
    ensures forall i | 0 <= i < |t.refreshes| :: Backfilled(t, t.refreshes[i].at, late)
  {
    forall i | 0 <= i < |t.refreshes| ensures Backfilled(t, t.refreshes[i].at, late) {
      assert Backfilled(s, s.refreshes[i].at, late);
    }
  }

  lemma BurstKeeps(s: State, late: nat)
    requires Inv(s, late) && Can(s, BurstFires)
    ensures Inv(OnBurst(s), late)
  {
    var t := OnBurst(s);
    var u := s.(burst := Idle, burstPending := false);
    forall i | 0 <= i < |u.refreshes| ensures Backfilled(u, u.refreshes[i].at, late) {
      assert Backfilled(s, s.refreshes[i].at, late);
    }
    if s.burstPending {
      ChangedKeeps(u, true, late);
      SpreadMore(s.refreshes, Refresh(s.now, true));
    }
    forall i | 0 <= i < |t.messages| ensures Refreshed(t, t.messages[i], late) { BurstServes(s, i, late); }
  }

  lemma BurstServes(s: State, i: nat, late: nat)
    requires Inv(s, late) && Can(s, BurstFires) && i < |s.messages|
    ensures Refreshed(OnBurst(s), s.messages[i], late)
  {
    var t, x := OnBurst(s), s.messages[i];
    assert Refreshed(s, x, late);
    if RefreshWithin(s, x, x + BURST + late) {
      var k :| 0 <= k < |s.refreshes| && x <= s.refreshes[k].at <= x + BURST + late;
      assert t.refreshes[k] == s.refreshes[k];
    } else {
      assert t.refreshes[|s.refreshes|].at == s.now;
    }
  }

  lemma BackfillKeeps(s: State, late: nat)
    requires Inv(s, late) && Can(s, BackfillFires)
    ensures Inv(OnBackfill(s), late)
  {
    var t := OnBackfill(s);
    forall i | 0 <= i < |t.refreshes| ensures Backfilled(t, t.refreshes[i].at, late) { BackfillServes(s, i, late); }
    forall i | 0 <= i < |t.messages| ensures Refreshed(t, t.messages[i], late) {
      assert Refreshed(s, s.messages[i], late);
    }
  }

  lemma BackfillServes(s: State, i: nat, late: nat)
    requires Inv(s, late) && Can(s, BackfillFires) && i < |s.refreshes|
    ensures Backfilled(OnBackfill(s), s.refreshes[i].at, late)
  {
    var t, x := OnBackfill(s), s.refreshes[i].at;
    assert Backfilled(s, x, late) && x <= s.now;
    assert t.backfills[|s.backfills|] == s.now;
    if BackfillWithin(s, x + SETTLE, x + 2 * SETTLE + 2 * late) {
      var k :| 0 <= k < |s.backfills| && x + SETTLE <= s.backfills[k] <= x + 2 * SETTLE + 2 * late;
      assert t.backfills[k] == s.backfills[k];
    }
  }

  lemma InvKept(s: State, e: Event, late: nat)
    requires Inv(s, late) && Can(s, e)
    ensures Inv(Next(s, e), late)
  {
    match e
    case Message => MessageKeeps(s, late);
    case BurstFires => BurstKeeps(s, late);
    case BackfillFires => BackfillKeeps(s, late);
  }

  // ------------------------------------------------------------------ timed runs

  datatype Tick = Tick(now: int, event: Event)

  // What comes of the ticks of a run, from `s` on.
  function Play(s: State, ticks: seq<Tick>): State
    decreases |ticks|
  {
    if ticks == [] then s else Play(Next(s.(now := ticks[0].now), ticks[0].event), ticks[1..])
  }

  predicate Run(s: State, ticks: seq<Tick>, late: nat)
    decreases |ticks|
  {
    ticks != [] ==>
      var t := s.(now := ticks[0].now);
      CanWait(s, ticks[0].now, late) && Can(t, ticks[0].event) && Run(Next(t, ticks[0].event), ticks[1..], late)
  }

  lemma {:induction false} InvAlong(s: State, ticks: seq<Tick>, late: nat)
    requires Inv(s, late) && Run(s, ticks, late)
    ensures Inv(Play(s, ticks), late)
    decreases |ticks|
  {
    if ticks != [] {
      var t := s.(now := ticks[0].now);
      WaitKeeps(s, ticks[0].now, late);
      InvKept(t, ticks[0].event, late);
      InvAlong(Next(t, ticks[0].event), ticks[1..], late);
    }
  }

  // The throttle is not armed although a refresh was made less than a burst ago:
  // what was made was the refresh that ended a burst.
  predicate Unarmed(s: State) {
    s.burst.Idle? && s.refreshes != [] && s.now - s.refreshes[|s.refreshes| - 1].at < BURST
  }

  // The event makes a refresh less than a burst after some refresh before it.
  ghost predicate Crowds(s: State, e: Event) {
    var was, rs := s.refreshes, Next(s, e).refreshes;
    |rs| > |was| && exists i :: 0 <= i < |was| && rs[|was|].at - was[i].at < BURST
  }

  // An event crowds a refresh exactly if it is a message that finds the throttle so.
  lemma CrowdsWhen(s: State, e: Event, late: nat)
    requires Inv(s, late) && Can(s, e)
    ensures Crowds(s, e) <==> e.Message? && Unarmed(s)
  {
    if Unarmed(s) { assert s.now - s.refreshes[|s.refreshes| - 1].at < BURST; }
  }

  // Some two refreshes are less than a burst apart.
  ghost predicate Crowded(rs: seq<Refresh>) { exists i, j :: 0 <= i < j < |rs| && Close(rs, i, j) }

  predicate Close(rs: seq<Refresh>, i: nat, j: nat)
    requires i < j < |rs|
  {
    rs[j].at - rs[i].at < BURST
  }

  lemma CrowdedMore(s: State, e: Event)
    ensures Crowded(Next(s, e).refreshes) <==> Crowded(s.refreshes) || Crowds(s, e)
  {
    var was, rs := s.refreshes, Next(s, e).refreshes;
    assert was <= rs && |rs| <= |was| + 1;
    if Crowded(was) {
      var i, j :| 0 <= i < j < |was| && Close(was, i, j);
      assert Close(rs, i, j);
    }
    if Crowds(s, e) {
      var i :| 0 <= i < |was| && rs[|was|].at - was[i].at < BURST;
      assert Close(rs, i, |was|);
    }
    if Crowded(rs) {
      var i, j :| 0 <= i < j < |rs| && Close(rs, i, j);
      if j < |was| { assert Close(was, i, j); }
    }
  }

  // The state the `k`th tick of a run meets.
  function Met(s: State, ticks: seq<Tick>, k: nat): State
    requires k < |ticks|
  {
    Play(s, ticks[..k]).(now := ticks[k].now)
  }

  // The `k`th tick is a message that finds the throttle not armed too soon.
  predicate Slips(s: State, ticks: seq<Tick>, k: nat)
    requires k < |ticks|
  {
    ticks[k].event.Message? && Unarmed(Met(s, ticks, k))
  }

  lemma SlipsLater(s: State, ticks: seq<Tick>, k: nat)
    requires k + 1 < |ticks|
    ensures Slips(s, ticks, k + 1) <==> Slips(Next(s.(now := ticks[0].now), ticks[0].event), ticks[1..], k)
  {
    assert ticks[..k + 1][1..] == ticks[1..][..k];
  }

  ghost predicate SomeSlips(s: State, ticks: seq<Tick>) { exists k :: 0 <= k < |ticks| && Slips(s, ticks, k) }

  lemma SomeSlipsSplit(s: State, ticks: seq<Tick>)
    requires ticks != []
    ensures var t := s.(now := ticks[0].now);
            var here, later := ticks[0].event.Message? && Unarmed(t), SomeSlips(Next(t, ticks[0].event), ticks[1..]);
            SomeSlips(s, ticks) <==> here || later
  {
    var t := s.(now := ticks[0].now);
    var next := Next(t, ticks[0].event);
    assert Met(s, ticks, 0) == t;
    if SomeSlips(s, ticks) {
      var k :| 0 <= k < |ticks| && Slips(s, ticks, k);
      if k > 0 { SlipsLater(s, ticks, k - 1); }
    }
    if SomeSlips(next, ticks[1..]) {
      var k :| 0 <= k < |ticks| - 1 && Slips(next, ticks[1..], k);
      SlipsLater(s, ticks, k);
    }
    if ticks[0].event.Message? && Unarmed(t) { assert Slips(s, ticks, 0); }
  }

  lemma {:induction false} CrowdedAlong(s: State, ticks: seq<Tick>, late: nat)
    requires Inv(s, late) && Run(s, ticks, late)
    ensures Crowded(Play(s, ticks).refreshes) <==> Crowded(s.refreshes) || SomeSlips(s, ticks)
    decreases |ticks|
  {
    if ticks != [] {
      var t := s.(now := ticks[0].now);
      WaitKeeps(s, ticks[0].now, late);
      InvKept(t, ticks[0].event, late);
      CrowdedMore(t, ticks[0].event);
      CrowdsWhen(t, ticks[0].event, late);
      SomeSlipsSplit(s, ticks);
      CrowdedAlong(Next(t, ticks[0].event), ticks[1..], late);
    }
  }

  // In every timed run: backfills are 800 or more apart. Two refreshes are less
  // than 300 apart if and only if some tick of the run is a message that finds the
  // throttle idle less than 300 after a refresh; and then they are neighbours, the
  // earlier one the end of a burst and the later the start of the next.
  lemma RunsSpread(start: int, ticks: seq<Tick>, late: nat)
    requires Run(Start(start), ticks, late)
    ensures var s := Play(Start(start), ticks);
            && (forall i, j | 0 <= i < j < |s.backfills| :: s.backfills[j] - s.backfills[i] >= SETTLE)
            && (forall i, j | 0 <= i < j < |s.refreshes| :: Apart(s.refreshes, i, j))
            && (Crowded(s.refreshes) <==> SomeSlips(Start(start), ticks))
  {
    StartHolds(start, late);
    InvAlong(Start(start), ticks, late);
    CrowdedAlong(Start(start), ticks, late);
  }

  // And none is starved: once the time for it is past, each message has had a
  // refresh no earlier, and that refresh a backfill 800 or more after it.
  lemma RunsServe(start: int, ticks: seq<Tick>, late: nat, i: nat) returns (refresh: int, backfill: int)
    requires Run(Start(start), ticks, late)
    requires var s := Play(Start(start), ticks);
             && i < |s.messages|
             && ((s.burst.Idle? && s.backfill.Idle?) || s.now > s.messages[i] + BURST + 2 * SETTLE + 3 * late)
    ensures var s := Play(Start(start), ticks);
            && RefreshWithin(s, refresh, refresh) && backfill in s.backfills
            && s.messages[i] <= refresh <= s.messages[i] + BURST + late
            && refresh + SETTLE <= backfill <= refresh + 2 * SETTLE + 2 * late
  {
    StartHolds(start, late);
    InvAlong(Start(start), ticks, late);
    var s := Play(Start(start), ticks);
    var x := s.messages[i];
    assert Refreshed(s, x, late);
    var k :| 0 <= k < |s.refreshes| && x <= s.refreshes[k].at <= x + BURST + late;
    refresh := s.refreshes[k].at;
    assert Backfilled(s, refresh, late);
    var b :| 0 <= b < |s.backfills| && refresh + SETTLE <= s.backfills[b] <= refresh + 2 * SETTLE + 2 * late;
    backfill := s.backfills[b];
  }

  // ------------------------------------------------------------- nothing is idle

  ghost predicate MessageWithin(s: State, from: int, to: int) {
    exists i :: 0 <= i < |s.messages| && from <= s.messages[i] <= to
  }

  // A refresh at `at` has a message it is for.
  ghost predicate Meant(s: State, at: int, late: nat) { MessageWithin(s, at - BURST - late, at) }

  // A backfill at `at` has a refresh it is for; and one that is armed for then.
  ghost predicate Wanted(s: State, at: int, late: nat) { RefreshWithin(s, at - 2 * SETTLE - 2 * late, at - SETTLE) }

  ghost predicate Armed(s: State, at: int, late: nat) { RefreshWithin(s, at - 2 * SETTLE - late, at - SETTLE) }

  ghost predicate AllMeant(s: State, late: nat) { forall i | 0 <= i < |s.refreshes| :: Meant(s, s.refreshes[i].at, late) }

  ghost predicate AllWanted(s: State, late: nat) { forall i | 0 <= i < |s.backfills| :: Wanted(s, s.backfills[i], late) }

  ghost predicate BurstMeant(s: State) {
    s.burst.Due? && s.burstPending ==> MessageWithin(s, s.burst.at - BURST, s.now)
  }

  ghost predicate BackfillArmed(s: State, late: nat) {
    && (s.backfill.Due? ==> Armed(s, s.backfill.at, late))
    && (s.backfill.Due? && s.backfillPending ==> RefreshWithin(s, s.backfill.at - SETTLE, s.now))
  }

  ghost predicate Caused(s: State, late: nat) {
    AllMeant(s, late) && AllWanted(s, late) && BurstMeant(s) && BackfillArmed(s, late)
  }

  // What has happened stays, in ranges as wide or wider.
  lemma MessageStays(s: State, t: State, from: int, to: int, from': int, to': int)
    requires s.messages <= t.messages && MessageWithin(s, from, to) && from' <= from && to <= to'
    ensures MessageWithin(t, from', to')
  {
    var i :| 0 <= i < |s.messages| && from <= s.messages[i] <= to;
    assert t.messages[i] == s.messages[i];
  }

  lemma RefreshStays(s: State, t: State, from: int, to: int, from': int, to': int)
    requires s.refreshes <= t.refreshes && RefreshWithin(s, from, to) && from' <= from && to <= to'
    ensures RefreshWithin(t, from', to')
  {
    var i :| 0 <= i < |s.refreshes| && from <= s.refreshes[i].at <= to;
    assert t.refreshes[i] == s.refreshes[i];
  }

  // The refreshes there were, and the backfills, are as they were.
  lemma OldMeant(s: State, t: State, late: nat)
    requires s.messages <= t.messages && t.refreshes == s.refreshes && AllMeant(s, late)
    ensures AllMeant(t, late)
  {
    forall i | 0 <= i < |t.refreshes| ensures Meant(t, t.refreshes[i].at, late) {
      var at := s.refreshes[i].at;
      assert Meant(s, at, late);
      MessageStays(s, t, at - BURST - late, at, at - BURST - late, at);
    }
  }

  lemma OldWanted(s: State, t: State, late: nat)
    requires s.refreshes <= t.refreshes && t.backfills == s.backfills && AllWanted(s, late)
    ensures AllWanted(t, late)
  {
    forall i | 0 <= i < |t.backfills| ensures Wanted(t, t.backfills[i], late) {
      var at := s.backfills[i];
      assert Wanted(s, at, late);
      RefreshStays(s, t, at - 2 * SETTLE - 2 * late, at - SETTLE, at - 2 * SETTLE - 2 * late, at - SETTLE);
    }
  }

  lemma OldArmed(s: State, t: State, late: nat)
    requires s.refreshes <= t.refreshes && t.backfill == s.backfill && t.backfillPending == s.backfillPending
    requires s.now <= t.now && BackfillArmed(s, late)
    ensures BackfillArmed(t, late)
  {
    if s.backfill.Due? {
      var at := s.backfill.at;
      RefreshStays(s, t, at - 2 * SETTLE - late, at - SETTLE, at - 2 * SETTLE - late, at - SETTLE);
      if s.backfillPending { RefreshStays(s, t, at - SETTLE, s.now, at - SETTLE, t.now); }
    }
  }

  lemma OldBurst(s: State, t: State)
    requires s.messages <= t.messages && t.burst == s.burst && t.burstPending == s.burstPending && s.now <= t.now
    requires BurstMeant(s)
    ensures BurstMeant(t)
  {
    if s.burst.Due? && s.burstPending { MessageStays(s, t, s.burst.at - BURST, s.now, s.burst.at - BURST, t.now); }
  }

  lemma WaitKeepsCaused(s: State, now: int, late: nat)
    requires CanWait(s, now, late) && Caused(s, late)
    ensures Caused(s.(now := now), late)
  {
    var t := s.(now := now);
    OldMeant(s, t, late);
    OldWanted(s, t, late);
    OldArmed(s, t, late);
    OldBurst(s, t);
  }

  // A refresh that has its message.
  lemma ChangedCaused(s: State, trailing: bool, late: nat)
    requires TimersSound(s, late) && AllMeant(s, late) && AllWanted(s, late) && BackfillArmed(s, late) && Meant(s, s.now, late)
    ensures var t := Changed(s, trailing); AllMeant(t, late) && AllWanted(t, late) && BackfillArmed(t, late)
  {
    var t := Changed(s, trailing);
    OldWanted(s, t, late);
    assert t.refreshes[|s.refreshes|].at == s.now;
    forall i | 0 <= i < |t.refreshes| ensures Meant(t, t.refreshes[i].at, late) {
      var at := t.refreshes[i].at;
      if i < |s.refreshes| { assert at == s.refreshes[i].at; }
      MessageStays(s, t, at - BURST - late, at, at - BURST - late, at);
    }
    if s.backfill.Due? {
      var at := s.backfill.at;
      RefreshStays(s, t, at - 2 * SETTLE - late, at - SETTLE, at - 2 * SETTLE - late, at - SETTLE);
    }
  }

  lemma MessageCaused(s: State, late: nat)
    requires TimersSound(s, late) && Caused(s, late)
    ensures Caused(OnMessage(s), late)
  {
    var u, t := s.(messages := s.messages + [s.now]), OnMessage(s);
    assert u.messages[|s.messages|] == s.now;
    OldMeant(s, u, late);
    OldWanted(s, u, late);
    OldArmed(s, u, late);
    if s.burst.Idle? {
      ChangedCaused(u, false, late);
      OldMeant(Changed(u, false), t, late);
      OldWanted(Changed(u, false), t, late);
      OldArmed(Changed(u, false), t, late);
    } else {
      OldMeant(u, t, late);
      OldWanted(u, t, late);
      OldArmed(u, t, late);
      assert t.messages[|s.messages|] == s.now;
    }
  }

  lemma BurstCaused(s: State, late: nat)
    requires TimersSound(s, late) && Caused(s, late) && Can(s, BurstFires)
    ensures Caused(OnBurst(s), late)
  {
    var u := s.(burst := Idle, burstPending := false);
    OldMeant(s, u, late);
    OldWanted(s, u, late);
    OldArmed(s, u, late);
    if s.burstPending {
      MessageStays(s, u, s.burst.at - BURST, s.now, s.now - BURST - late, s.now);
      ChangedCaused(u, true, late);
    } else {
      assert OnBurst(s) == u;
    }
  }

  lemma BackfillCaused(s: State, late: nat)
    requires TimersSound(s, late) && Caused(s, late) && Can(s, BackfillFires)
    ensures Caused(OnBackfill(s), late)
  {
    var t, at := OnBackfill(s), s.backfill.at;
    OldMeant(s, t, late);
    OldBurst(s, t);
    RefreshStays(s, t, at - 2 * SETTLE - late, at - SETTLE, s.now - 2 * SETTLE - 2 * late, s.now - SETTLE);
    if s.backfillPending { RefreshStays(s, t, at - SETTLE, s.now, s.now - SETTLE - late, s.now); }
    forall k | 0 <= k < |t.backfills| ensures Wanted(t, t.backfills[k], late) {
      if k < |s.backfills| {
        var b := s.backfills[k];
        assert t.backfills[k] == b && Wanted(s, b, late);
        RefreshStays(s, t, b - 2 * SETTLE - 2 * late, b - SETTLE, b - 2 * SETTLE - 2 * late, b - SETTLE);
      }
    }
  }

  lemma {:induction false} CausedAlong(s: State, ticks: seq<Tick>, late: nat)
    requires Inv(s, late) && Caused(s, late) && Run(s, ticks, late)
    ensures Caused(Play(s, ticks), late)
    decreases |ticks|
  {
    if ticks != [] {
      var t := s.(now := ticks[0].now);
      WaitKeeps(s, ticks[0].now, late);
      WaitKeepsCaused(s, ticks[0].now, late);
      InvKept(t, ticks[0].event, late);
      match ticks[0].event {
        case Message => MessageCaused(t, late);
        case BurstFires => BurstCaused(t, late);
        case BackfillFires => BackfillCaused(t, late);
      }
      CausedAlong(Next(t, ticks[0].event), ticks[1..], late);
    }
  }

  // In every timed run nothing is done for nothing: each refresh has a message at
  // most a burst before it, and each backfill a refresh at most two settling times
  // before it that it is at least one behind.
  lemma RunsAreCaused(start: int, ticks: seq<Tick>, late: nat)
    requires Run(Start(start), ticks, late)
    ensures var s := Play(Start(start), ticks);
            && (forall i | 0 <= i < |s.refreshes| :: Meant(s, s.refreshes[i].at, late))
            && (forall i | 0 <= i < |s.backfills| :: Wanted(s, s.backfills[i], late))
  {
    StartHolds(start, late);
    CausedAlong(Start(start), ticks, late);
  }

  // The exception is real: a message just after the end of a burst is refreshed
  // 1 ms after the burst's last refresh.
  lemma NeighboursMeet(late: nat)
    ensures var ticks := [Tick(0, Message), Tick(100, Message), Tick(300, BurstFires), Tick(301, Message)];
            && Run(Start(0), ticks, late)
            && Play(Start(0), ticks).refreshes == [Refresh(0, false), Refresh(300, true), Refresh(301, false)]
  {
    var t0, t1, t2, t3 := Tick(0, Message), Tick(100, Message), Tick(300, BurstFires), Tick(301, Message);
    var s0 := Start(0);
    var s1 := Next(s0, Message);
    var s2 := Next(s1.(now := 100), Message);
    var s3 := Next(s2.(now := 300), BurstFires);
    var s4 := Next(s3.(now := 301), Message);
    assert s0.(now := 0) == s0;
    assert [t0, t1, t2, t3][1..] == [t1, t2, t3] && [t1, t2, t3][1..] == [t2, t3] && [t2, t3][1..] == [t3] && [t3][1..] == [];
    assert Play(s3, [t3]) == s4 && Run(s3, [t3], late);
    assert Play(s2, [t2, t3]) == s4 && Run(s2, [t2, t3], late);
    assert Play(s1, [t1, t2, t3]) == s4 && Run(s1, [t1, t2, t3], late);
    assert Play(s0, [t0, t1, t2, t3]) == s4 && Run(s0, [t0, t1, t2, t3], late);
  }

  // ------------------------------------------------------------- the callbacks

  // The page's timer handles and flags, with a record of what has happened.
  class Page {
    var topologyBackfillTimer: Timer
    var topologyBackfillPending: bool
    var topologyBurstTimer: Timer
    var topologyBurstPending: bool
    ghost var messages: seq<int>
    ghost var refreshes: seq<Refresh>
    ghost var backfills: seq<int>

    constructor ()
      ensures forall now :: At(now) == Start(now)
    {
      topologyBackfillTimer, topologyBackfillPending := Idle, false;
      topologyBurstTimer, topologyBurstPending := Idle, false;
      messages, refreshes, backfills := [], [], [];
    }

    ghost function At(now: int): State
      reads this
    {
      State(now, topologyBackfillTimer, topologyBackfillPending, topologyBurstTimer, topologyBurstPending,
            messages, refreshes, backfills)
    }

    method OnTopologyChanged(now: int, ghost trailing: bool)
      modifies this
      ensures At(now) == Changed(old(At(now)), trailing)
    {
      refreshes := refreshes + [Refresh(now, trailing)];
      if topologyBackfillTimer.Idle? {
        ArmTopologyBackfill(now);
      } else {
        topologyBackfillPending := true;
      }
    }

    method ArmTopologyBackfill(now: int)
      modifies this`topologyBackfillTimer
      ensures topologyBackfillTimer == Due(now + SETTLE)
    {
      topologyBackfillTimer := Due(now + SETTLE);
    }

    method BackfillFires(now: int)
      requires Can(At(now), Event.BackfillFires)
      modifies this
      ensures At(now) == OnBackfill(old(At(now)))
    {
      topologyBackfillTimer := Idle;
      backfills := backfills + [now];
      if topologyBackfillPending {
        topologyBackfillPending := false;
        ArmTopologyBackfill(now);
      }
    }

    method MessageArrives(now: int)
      modifies this
      ensures At(now) == OnMessage(old(At(now)))
    {
      messages := messages + [now];
      if topologyBurstTimer.Due? {
        topologyBurstPending := true;
        return;
      }
      OnTopologyChanged(now, false);
      topologyBurstTimer := Due(now + BURST);
    }

    method BurstFires(now: int)
      requires Can(At(now), Event.BurstFires)
      modifies this
      ensures At(now) == OnBurst(old(At(now)))
    {
      topologyBurstTimer := Idle;
      if topologyBurstPending {
        topologyBurstPending := false;
        OnTopologyChanged(now, true);
      }
    }
  }
}
