// The dispatch store (src/sim/dispatch.rs): what is kept for each microgrid, and
// the stream of changes it broadcasts. A change and its broadcast happen under
// one write lock, so what is kept is always what the changes add up to.
module DispatchStore {
  import opened Wrappers
  import Sets

  type Mg = int
  type Id = int

  // Points in time, on one scale of whole steps.
  type Instant = int

  // The fields of a dispatch that its end is derived from, whether it is active,
  // and everything else as one text. `recurring` stands for a recurrence rule with
  // a frequency.
  datatype DispatchData = DispatchData(start: Option<Instant>, duration: Option<nat>, recurring: bool, active: bool, rest: string)

  datatype Stamps = Stamps(created: Instant, updated: Instant, end: Option<Instant>)

  datatype Dispatch = Dispatch(id: Id, data: DispatchData, stamps: Stamps)

  datatype Change = Created | Updated | Deleted

  datatype Event = Event(mg: Mg, change: Change, dispatch: Dispatch)

  type Kept = map<Id, Dispatch>

  // The instants the calendar can hold.
  datatype Calendar = Calendar(first: Instant, last: Instant)
  {
    predicate Holds(t: Instant) { first <= t <= last }
  }

  // When a dispatch ends: only one that happens once and has a duration does, and
  // only if the calendar reaches that far.
  function EndTime(d: DispatchData, calendar: Calendar): Option<Instant> {
    if d.recurring || d.start.None? || d.duration.None? || !calendar.Holds(d.start.value) then None
    else
      var end := d.start.value + d.duration.value;
      if calendar.Holds(end) then Some(end) else None
  }

  // The end is there exactly when it can be told: one run, with a start and a
  // duration, both ends of it in the calendar; and then it is a duration after the
  // start.
  predicate EndsRight(d: DispatchData, end: Option<Instant>, calendar: Calendar) {
    && (end.Some? <==>
          && !d.recurring && d.start.Some? && d.duration.Some?
          && calendar.first <= d.start.value <= calendar.last
          && calendar.first <= d.start.value + d.duration.value <= calendar.last)
    && (end.Some? ==> end.value - d.start.value == d.duration.value)
  }

  lemma EndTimeIsRight(d: DispatchData, calendar: Calendar)
    ensures EndsRight(d, EndTime(d, calendar), calendar)
  {
  }

  // The data after an edit, stamped anew.
  function Stamped(d: Dispatch, data: DispatchData, now: Instant, calendar: Calendar): Dispatch {
    d.(data := data, stamps := d.stamps.(updated := now, end := EndTime(data, calendar)))
  }

  // Every dispatch ends when its data says, and its id is one of those allocated
  // below `next`.
  ghost predicate WellMade(inner: map<Mg, Kept>, next: Id, calendar: Calendar) {
    forall mg, id | id in Of(inner, mg) :: MadeRight(Of(inner, mg)[id], next, calendar)
  }

  predicate MadeRight(d: Dispatch, next: Id, calendar: Calendar) {
    d.id < next && EndsRight(d.data, d.stamps.end, calendar)
  }

  // The next id is in use nowhere.
  lemma NewId(inner: map<Mg, Kept>, next: Id, calendar: Calendar)
    requires WellMade(inner, next, calendar) && forall mg :: WellKeyed(Of(inner, mg))
    ensures forall mg :: next !in Of(inner, mg)
  {
    forall mg ensures next !in Of(inner, mg) {
      assert WellKeyed(Of(inner, mg));
      forall id | id in Of(inner, mg) ensures id < next {
        assert MadeRight(Of(inner, mg)[id], next, calendar);
      }
    }
  }

  // A change to a dispatch made right leaves all of them so.
  lemma CommitWellMade(before: map<Mg, Kept>, e: Event, after: map<Mg, Kept>, next: Id, calendar: Calendar)
    requires WellMade(before, next, calendar) && Committed(before, e, after)
    requires e.change.Deleted? || MadeRight(e.dispatch, next, calendar)
    ensures WellMade(after, next, calendar)
  {
    forall mg, id | id in Of(after, mg) ensures MadeRight(Of(after, mg)[id], next, calendar) {
      if id in Of(before, mg) { assert MadeRight(Of(before, mg)[id], next, calendar); }
    }
  }

  function Of(inner: map<Mg, Kept>, mg: Mg): Kept {
    if mg in inner then inner[mg] else map[]
  }

  // What a client that keys on the dispatch id makes of a change.
  function Apply(m: Kept, change: Change, d: Dispatch): Kept {
    if change.Deleted? then m - {d.id} else m[d.id := d]
  }

  // What the changes of one microgrid add up to.
  function History(log: seq<Event>, mg: Mg): Kept {
    if log == [] then map[]
    else
      var was, e := History(log[..|log| - 1], mg), log[|log| - 1];
      if e.mg == mg then Apply(was, e.change, e.dispatch) else was
  }

  lemma HistoryNext(log: seq<Event>, e: Event, mg: Mg)
    ensures History(log + [e], mg)
         == if e.mg == mg then Apply(History(log, mg), e.change, e.dispatch) else History(log, mg)
  {
    assert (log + [e])[..|log|] == log;
  }

  ghost predicate WellKeyed(m: Kept) { forall id | id in m :: m[id].id == id }

  // Every microgrid listed has a dispatch, each under its own id, and is as its
  // changes left it.
  ghost predicate Agrees(inner: map<Mg, Kept>, log: seq<Event>) {
    && (forall mg | mg in inner :: inner[mg] != map[])
    && forall mg :: Of(inner, mg) == History(log, mg) && WellKeyed(Of(inner, mg))
  }

  // The store after a change of one microgrid: the others' are as they were.
  ghost predicate Committed(before: map<Mg, Kept>, e: Event, after: map<Mg, Kept>) {
    && (forall mg | mg in after :: after[mg] != map[])
    && forall mg :: Of(after, mg) == if mg == e.mg then Apply(Of(before, mg), e.change, e.dispatch) else Of(before, mg)
  }

  // One microgrid's dispatches become `kept` and the others' stay; none is listed
  // without a dispatch.
  ghost predicate Becomes(before: map<Mg, Kept>, mg: Mg, kept: Kept, after: map<Mg, Kept>) {
    && (forall other | other in after :: after[other] != map[])
    && Of(after, mg) == kept && forall other | other != mg :: Of(after, other) == Of(before, other)
  }

  lemma CommitAgrees(before: map<Mg, Kept>, log: seq<Event>, e: Event, after: map<Mg, Kept>)
    requires Agrees(before, log) && Committed(before, e, after)
    ensures Agrees(after, log + [e])
  {
    forall mg ensures Of(after, mg) == History(log + [e], mg) && WellKeyed(Of(after, mg)) {
      HistoryNext(log, e, mg);
      assert Of(before, mg) == History(log, mg) && WellKeyed(Of(before, mg));
    }
  }

  class Store {
    var inner: map<Mg, Kept>
    var nextId: Id
    // Every change broadcast so far.
    ghost var log: seq<Event>

    const calendar: Calendar

    constructor (calendar: Calendar)
      ensures Valid() && Sound() && inner == map[] && nextId == 1 && log == [] && this.calendar == calendar
    {
      inner, nextId, log := map[], 1, [];
      this.calendar := calendar;
    }

    // As the store is kept by Create, UpdateWith and Remove.
    ghost predicate Sound()
      reads this
    {
      WellMade(inner, nextId, calendar)
    }

    ghost predicate Valid()
      reads this
    {
      Agrees(inner, log)
    }

    method AllocId() returns (id: Id)
      modifies this`nextId
      ensures id == old(nextId) && nextId == id + 1
    {
      id := nextId;
      nextId := nextId + 1;
    }

    method Insert(mg: Mg, d: Dispatch)
      requires Valid()
      modifies this`inner, this`log
      ensures Valid() && Committed(old(inner), Event(mg, Created, d), inner)
      ensures Becomes(old(inner), mg, Of(old(inner), mg)[d.id := d], inner)
      ensures log == old(log) + [Event(mg, Created, d)]
    {
      var kept := Of(inner, mg);
      kept := kept[d.id := d];
      inner := inner[mg := kept];
      assert d.id in inner[mg];
      Broadcast(mg, Created, d, old(inner));
    }

    // The one way a dispatch is made: with a new id, stamped now, and with its end
    // derived. One without a start is refused, and nothing changes.
    method Create(mg: Mg, data: DispatchData, startImmediately: bool, now: Instant) returns (made: Option<Dispatch>)
      requires Valid() && Sound()
      modifies this
      ensures Valid() && Sound()
      ensures made.None? <==> !startImmediately && data.start.None?
      ensures made.None? ==> inner == old(inner) && log == old(log) && nextId == old(nextId)
      ensures made.Some? ==>
        && made.value.data == (if startImmediately then data.(start := Some(now)) else data)
        && made.value.stamps.created == made.value.stamps.updated == now
        && EndsRight(made.value.data, made.value.stamps.end, calendar)
        && (forall other :: made.value.id !in Of(old(inner), other))
        && Becomes(old(inner), mg, Of(old(inner), mg)[made.value.id := made.value], inner)
        && Committed(old(inner), Event(mg, Created, made.value), inner)
        && log == old(log) + [Event(mg, Created, made.value)]
    {
      var full := if startImmediately then data.(start := Some(now)) else data;
      if full.start.None? { return None; }
      var end := EndTime(full, calendar);
      ghost var before := inner;
      var id := AllocId();
      NewId(before, id, calendar);
      var d := Dispatch(id, full, Stamps(now, now, end));
      Insert(mg, d);
      CommitWellMade(before, Event(mg, Created, d), inner, nextId, calendar);
      made := Some(d);
    }

    method Replace(mg: Mg, d: Dispatch) returns (found: bool)
      requires Valid()
      modifies this`inner, this`log
      ensures Valid() && found == (d.id in Of(old(inner), mg))
      ensures found ==> Becomes(old(inner), mg, Of(old(inner), mg)[d.id := d], inner)
      ensures found ==> Committed(old(inner), Event(mg, Updated, d), inner) && log == old(log) + [Event(mg, Updated, d)]
      ensures !found ==> inner == old(inner) && log == old(log)
    {
      if mg !in inner || d.id !in inner[mg] { return false; }
      inner := inner[mg := inner[mg][d.id := d]];
      Broadcast(mg, Updated, d, old(inner));
      found := true;
    }

    method Remove(mg: Mg, id: Id) returns (removed: Option<Dispatch>)
      requires Valid()
      modifies this`inner, this`log
      ensures Valid() && (removed.Some? <==> id in Of(old(inner), mg))
      ensures removed.Some? ==>
        && removed.value == Of(old(inner), mg)[id] && removed.value.id == id
        && Becomes(old(inner), mg, Of(old(inner), mg) - {id}, inner)
        && Committed(old(inner), Event(mg, Deleted, removed.value), inner)
        && log == old(log) + [Event(mg, Deleted, removed.value)]
      ensures removed.None? ==> inner == old(inner) && log == old(log)
      ensures old(Sound()) ==> Sound()
    {
      if mg !in inner || id !in inner[mg] { return None; }
      assert WellKeyed(Of(inner, mg));
      var d := inner[mg][id];
      var kept := inner[mg];
      kept := kept - {id};
      inner := inner[mg := kept];
      if inner[mg] == map[] { inner := inner - {mg}; }
      Broadcast(mg, Deleted, d, old(inner));
      if old(Sound()) { CommitWellMade(old(inner), Event(mg, Deleted, d), inner, nextId, calendar); }
      removed := Some(d);
    }

    // `f` is what the caller does to the dispatch's data, under the one lock; the
    // stamps follow.
    method UpdateWith(mg: Mg, id: Id, f: DispatchData -> DispatchData, now: Instant) returns (updated: Option<Dispatch>)
      requires Valid()
      modifies this`inner, this`log
      ensures Valid() && (updated.Some? <==> id in Of(old(inner), mg)) && (old(Sound()) ==> Sound())
      ensures updated.Some? ==>
        var was := Of(old(inner), mg)[id];
        && updated.value.id == id && updated.value.data == f(was.data)
        && updated.value.stamps.created == was.stamps.created && updated.value.stamps.updated == now
        && EndsRight(f(was.data), updated.value.stamps.end, calendar)
        && Becomes(old(inner), mg, Of(old(inner), mg)[id := updated.value], inner)
        && Committed(old(inner), Event(mg, Updated, updated.value), inner)
        && log == old(log) + [Event(mg, Updated, updated.value)]
      ensures updated.None? ==> inner == old(inner) && log == old(log)
    {
      if mg !in inner || id !in inner[mg] { return None; }
      assert WellKeyed(Of(inner, mg));
      var d := Stamped(inner[mg][id], f(inner[mg][id].data), now, calendar);
      inner := inner[mg := inner[mg][id := d]];
      Broadcast(mg, Updated, d, old(inner));
      if old(Sound()) {
        assert MadeRight(Of(old(inner), mg)[id], nextId, calendar);
        CommitWellMade(old(inner), Event(mg, Updated, d), inner, nextId, calendar);
      }
      updated := Some(d);
    }

    // Pauses or resumes.
    method SetActive(mg: Mg, id: Id, active: bool, now: Instant) returns (updated: Option<Dispatch>)
      requires Valid()
      modifies this`inner, this`log
      ensures Valid() && (updated.Some? <==> id in Of(old(inner), mg)) && (old(Sound()) ==> Sound())
      ensures updated.Some? ==>
        var was := Of(old(inner), mg)[id];
        && updated.value.id == id && updated.value.data == was.data.(active := active)
        && updated.value.stamps.created == was.stamps.created && updated.value.stamps.updated == now
        && EndsRight(updated.value.data, updated.value.stamps.end, calendar)
        && Becomes(old(inner), mg, Of(old(inner), mg)[id := updated.value], inner)
        && Committed(old(inner), Event(mg, Updated, updated.value), inner)
        && log == old(log) + [Event(mg, Updated, updated.value)]
      ensures updated.None? ==> inner == old(inner) && log == old(log)
    {
      updated := UpdateWith(mg, id, (d: DispatchData) => d.(active := active), now);
    }

    // Tells the receivers, the write lock still held.
    method Broadcast(mg: Mg, change: Change, d: Dispatch, ghost before: map<Mg, Kept>)
      requires Agrees(before, log) && Committed(before, Event(mg, change, d), inner)
      modifies this`log
      ensures Valid() && log == old(log) + [Event(mg, change, d)]
    {
      CommitAgrees(before, log, Event(mg, change, d), inner);
      log := log + [Event(mg, change, d)];
    }

    // The dispatches of a microgrid, lowest id first.
    method ListMg(mg: Mg) returns (listed: seq<Dispatch>)
      requires Valid()
      ensures Lists(listed, Of(inner, mg))
    {
      listed := [];
      var m := Of(inner, mg);
      var left := m.Keys;
      assert WellKeyed(m);
      while left != {}
        invariant ListedSoFar(m, listed, left) && WellKeyed(m)
        decreases |left|
      {
        var id := Sets.Lowest(left);
        ListedNext(m, listed, left, id);
        listed := listed + [m[id]];
        left := left - {id};
      }
    }
  }

  ghost predicate ListedSoFar(m: Kept, listed: seq<Dispatch>, left: set<Id>) {
    && left <= m.Keys && Ascending(listed)
    && (forall d :: d in listed <==> d.id in m && d.id !in left && m[d.id] == d)
    && forall i, id | 0 <= i < |listed| && id in left :: listed[i].id < id
  }

  lemma ListedNext(m: Kept, listed: seq<Dispatch>, left: set<Id>, id: Id)
    requires ListedSoFar(m, listed, left) && WellKeyed(m)
    requires id in left && forall other | other in left :: id <= other
    ensures ListedSoFar(m, listed + [m[id]], left - {id})
  {
    var now := listed + [m[id]];
    assert m[id].id == id;
    forall d ensures d in now <==> d.id in m && d.id !in left - {id} && m[d.id] == d {
      assert d in now <==> d in listed || d == m[id];
    }
  }

  ghost predicate Ascending(listed: seq<Dispatch>) {
    forall i, j | 0 <= i < j < |listed| :: listed[i].id < listed[j].id
  }

  ghost predicate Lists(listed: seq<Dispatch>, m: Kept) {
    Ascending(listed) && forall d :: d in listed <==> d.id in m && m[d.id] == d
  }
}
