// The listener that starts each microgrid as it is registered (src/runtime.rs,
// spawn_registration_listener and start_all), over a broadcast that drops old
// announcements when the listener falls behind.
module RegistrationListener {

  type Id = nat

  // How many announcements the channel keeps for a receiver (src/lisp/boot.rs).
  const CAPACITY := 1024

  // A make-microgrid that has put its entry in and not announced it yet; the
  // interpreter runs one at a time.
  datatype Pending = Nothing | Inserted(id: Id, isNew: bool)

  // Where the listener is: not subscribed; about to read the registry; starting
  // the ids it read; waiting on the channel; starting an announced id.
  datatype Phase = New | Snapshot | Pass(todo: seq<Id>) | Waiting | One(id: Id)

  // `log` is every announcement ever made, `next` the first the receiver has not
  // read, `latest` how many there were when an id's latest start was made.
  datatype State = State(registry: set<Id>, pending: Pending, log: seq<Id>, next: nat, phase: Phase, latest: map<Id, nat>)

  datatype Event =
    | Insert(id: Id)        // the entry of a new microgrid, or of a reloaded one
    | Announce
    | Remove                // the topology of a new one failed: its entry goes again
    | Subscribe
    | ReadRegistry
    | StartOne              // the next start of a pass, or the one announced
    | PassDone
    | Receive               // an announcement
    | Lag                   // or that some were dropped

  predicate Lagged(s: State) { |s.log| > s.next + CAPACITY }

  predicate Enabled(s: State, e: Event) {
    match e
    case Insert(_) => s.pending.Nothing?
    case Announce => s.pending.Inserted?
    case Remove => s.pending.Inserted? && s.pending.isNew
    case Subscribe => s.phase.New?
    case ReadRegistry => s.phase.Snapshot?
    case StartOne => s.phase.One? || (s.phase.Pass? && s.phase.todo != [])
    case PassDone => s.phase == Pass([])
    case Receive => s.phase.Waiting? && s.next < |s.log| && !Lagged(s)
    case Lag => s.phase.Waiting? && Lagged(s)
  }

  // A receiver at most 1024 announcements behind reads on; one further behind is
  // told so instead, and goes back to what the channel still keeps.
  lemma ReadsWhatIsKept(s: State)
    requires s.phase.Waiting? && s.next <= |s.log|
    ensures Enabled(s, Receive) <==> 0 < |s.log| - s.next <= 1024
    ensures Enabled(s, Lag) <==> |s.log| - s.next > 1024
  {
  }

  // The ids of the registry, lowest first.
  ghost predicate Keys(ids: seq<Id>, registry: set<Id>) {
    && (forall i, j | 0 <= i < j < |ids| :: ids[i] < ids[j])
    && forall id :: id in ids <==> id in registry
  }

  function Started(s: State, id: Id): map<Id, nat> { s.latest[id := |s.log|] }

  ghost predicate Step(s: State, e: Event, t: State) {
    && Enabled(s, e)
    && match e
       case Insert(id) => t == s.(registry := s.registry + {id}, pending := Inserted(id, id !in s.registry))
       case Announce => t == s.(log := s.log + [s.pending.id], pending := Nothing)
       case Remove => t == s.(registry := s.registry - {s.pending.id}, pending := Nothing)
       case Subscribe => t == s.(next := |s.log|, phase := Snapshot)
       case ReadRegistry => t.phase.Pass? && Keys(t.phase.todo, s.registry) && t == s.(phase := t.phase)
       case StartOne =>
         if s.phase.One? then t == s.(latest := Started(s, s.phase.id), phase := Waiting)
         else t == s.(latest := Started(s, s.phase.todo[0]), phase := Pass(s.phase.todo[1..]))
       case PassDone => t == s.(phase := Waiting)
       case Receive => t == s.(next := s.next + 1, phase := One(s.log[s.next]))
       case Lag => t == s.(next := |s.log| - CAPACITY, phase := Snapshot)
  }

  // The `k`th announcement has been followed by a start of its microgrid.
  predicate Answered(s: State, k: nat)
    requires k < |s.log|
  {
    s.log[k] in s.latest && s.latest[s.log[k]] > k
  }

  // Or is still to be: it waits in the channel, or a pass or the start at hand
  // takes it in.
  predicate Owed(s: State, k: nat)
    requires k < |s.log|
  {
    || k >= s.next
    || s.phase.Snapshot?
    || (s.phase.Pass? && s.log[k] in s.phase.todo)
    || (s.phase.One? && s.phase.id == s.log[k])
  }

  ghost predicate Inv(s: State) {
    && s.next <= |s.log|
    && (forall id | id in s.log :: id in s.registry)
    && (s.pending.Inserted? ==> s.pending.id in s.registry && (s.pending.isNew ==> s.pending.id !in s.log))
    && (!s.phase.New? ==> forall k | 0 <= k < |s.log| :: Answered(s, k) || Owed(s, k))
  }

  ghost predicate Start(s: State) {
    && s.phase.New? && s.next == 0 && s.latest == map[] && s.pending.Nothing?
    && forall id | id in s.log :: id in s.registry
  }

  lemma {:induction false} InvKept(s: State, e: Event, t: State)
    requires Inv(s) && Step(s, e, t)
    ensures Inv(t)
  {
    match e
    case Insert(_) => SameLogKeeps(s, t);
    case Announce => AnnounceKeeps(s, t);
    case Remove => SameLogKeeps(s, t);
    case Subscribe =>
    case ReadRegistry => ReadKeeps(s, t);
    case StartOne => StartKeeps(s, t);
    case PassDone => SameLogKeeps(s, t);
    case Receive => ReceiveKeeps(s, t);
    case Lag =>
  }

  lemma SameLogKeeps(s: State, t: State)
    requires t.log == s.log && t.latest == s.latest && t.next == s.next
    requires t.phase == s.phase || (s.phase == Pass([]) && t.phase == Waiting)
    ensures forall k | 0 <= k < |s.log| && (Answered(s, k) || Owed(s, k)) :: Answered(t, k) || Owed(t, k)
  {
  }

  lemma AnnounceKeeps(s: State, t: State)
    requires Inv(s) && Step(s, Announce, t)
    ensures Inv(t)
  {
    forall k | 0 <= k < |t.log| && !t.phase.New? ensures Answered(t, k) || Owed(t, k) {
      if k < |s.log| { assert t.log[k] == s.log[k] && (Answered(s, k) || Owed(s, k)); }
    }
  }

  lemma ReadKeeps(s: State, t: State)
    requires Inv(s) && Step(s, ReadRegistry, t)
    ensures Inv(t)
  {
    forall k | 0 <= k < |t.log| ensures Owed(t, k) {
      assert s.log[k] in s.log;
    }
  }

  lemma StartKeeps(s: State, t: State)
    requires Inv(s) && Step(s, StartOne, t)
    ensures Inv(t)
  {
    forall k | 0 <= k < |t.log| ensures Answered(t, k) || Owed(t, k) {
      assert Answered(s, k) || Owed(s, k);
    }
  }

  lemma ReceiveKeeps(s: State, t: State)
    requires Inv(s) && Step(s, Receive, t)
    ensures Inv(t)
  {
    forall k | 0 <= k < |t.log| ensures Answered(t, k) || Owed(t, k) {
      assert Answered(s, k) || Owed(s, k);
    }
  }

  ghost predicate Run(states: seq<State>, events: seq<Event>) {
    && |states| == |events| + 1 && Start(states[0])
    && forall i | 0 <= i < |events| :: Step(states[i], events[i], states[i + 1])
  }

  lemma {:induction false} InvAlong(states: seq<State>, events: seq<Event>, i: nat)
    requires Run(states, events) && i < |states|
    ensures Inv(states[i])
  {
    if i > 0 {
      InvAlong(states, events, i - 1);
      assert states[i - 1 + 1] == states[i];
      InvKept(states[i - 1], events[i - 1], states[i]);
    }
  }

  predicate CaughtUp(s: State) { s.phase.Waiting? && s.next == |s.log| }

  // Whatever was dropped on the way: when the listener waits on an empty channel,
  // each announcement ever made, of a new microgrid or of a reload that gives a
  // failed one another chance, has had a start of its microgrid made after it.
  lemma NoneMissed(states: seq<State>, events: seq<Event>, i: nat, k: nat)
    requires Run(states, events) && i < |states| && CaughtUp(states[i]) && k < |states[i].log|
    ensures !Lagged(states[i]) && Answered(states[i], k)
  {
    InvAlong(states, events, i);
  }

  // So every microgrid in the registry has had a start, but for one whose
  // make-microgrid is still under way.
  lemma EachStarted(states: seq<State>, events: seq<Event>, i: nat, id: Id)
    requires Run(states, events) && i < |states| && CaughtUp(states[i])
    requires forall known | known in states[0].registry :: known in states[0].log
    requires id in states[i].registry
    ensures id in states[i].latest || (states[i].pending.Inserted? && states[i].pending.id == id)
  {
    AnnouncedAlong(states, events, i);
    if !(states[i].pending.Inserted? && states[i].pending.id == id) {
      var k :| 0 <= k < |states[i].log| && states[i].log[k] == id;
      NoneMissed(states, events, i, k);
    }
  }

  // What is in the registry has been announced, or is about to be.
  lemma {:induction false} AnnouncedAlong(states: seq<State>, events: seq<Event>, i: nat)
    requires Run(states, events) && i < |states|
    requires forall known | known in states[0].registry :: known in states[0].log
    ensures var s := states[i];
            forall id | id in s.registry :: id in s.log || (s.pending.Inserted? && s.pending.id == id)
  {
    if i > 0 {
      AnnouncedAlong(states, events, i - 1);
      assert states[i - 1 + 1] == states[i];
      AnnouncedKept(states[i - 1], events[i - 1], states[i]);
    }
  }

  lemma AnnouncedKept(s: State, e: Event, t: State)
    requires Step(s, e, t)
    requires forall id | id in s.registry :: id in s.log || (s.pending.Inserted? && s.pending.id == id)
    ensures forall id | id in t.registry :: id in t.log || (t.pending.Inserted? && t.pending.id == id)
  {
  }

  // ------------------------------------------------------------------ the loop

  // The listener's side of the state.
  class Listener {
    var next: nat
    var latest: map<Id, nat>
    var starts: seq<Id>

    constructor (next: nat, latest: map<Id, nat>)
      ensures this.next == next && this.latest == latest && starts == []
    {
      this.next, this.latest, starts := next, latest, [];
    }

    // Of the first `n` announcements, each has had a start after it.
    ghost predicate AllAnswered(log: seq<Id>, n: nat)
      requires n <= |log|
      reads this
    {
      forall k | 0 <= k < n :: log[k] in latest && latest[log[k]] > k
    }

    method StartOne(id: Id, log: seq<Id>)
      modifies this
      ensures next == old(next) && latest == old(latest)[id := |log|] && starts == old(starts) + [id]
    {
      latest := latest[id := |log|];
      starts := starts + [id];
    }

    method StartAll(keys: seq<Id>, log: seq<Id>)
      requires forall id | id in log :: id in keys
      modifies this
      ensures next == old(next) && starts == old(starts) + keys && AllAnswered(log, |log|)
    {
      for i := 0 to |keys|
        invariant next == old(next) && starts == old(starts) + keys[..i]
        invariant forall id | id in keys[..i] :: id in latest && latest[id] == |log|
      {
        assert keys[..i + 1] == keys[..i] + [keys[i]];
        StartOne(keys[i], log);
      }
      assert keys[..|keys|] == keys;
      forall k | 0 <= k < |log| ensures log[k] in latest && latest[log[k]] > k {
        assert log[k] in log;
      }
    }

    // When nothing more is announced the loop reads the channel to its end, with a
    // start for every announcement, and with no more starts than the registry and
    // the channel hold, however many announcements were dropped.
    method CatchUp(keys: seq<Id>, log: seq<Id>)
      requires (forall id | id in log :: id in keys) && next <= |log| && AllAnswered(log, next)
      modifies this
      ensures next == |log| && AllAnswered(log, |log|)
      ensures |starts| - |old(starts)| <= |keys| + CAPACITY
    {
      ghost var made := |starts|;
      while next < |log|
        invariant next <= |log| && AllAnswered(log, next)
        invariant if |log| > next + CAPACITY then |starts| == made
                  else |starts| + |log| - next <= made + |keys| + CAPACITY
        decreases |log| - next
      {
        if |log| > next + CAPACITY {
          next := |log| - CAPACITY;
          StartAll(keys, log);
        } else {
          var id := log[next];
          next := next + 1;
          StartOne(id, log);
        }
      }
    }
  }
}
