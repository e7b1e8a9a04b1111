// The start protocol of the microgrid runtimes (src/runtime.rs) together with
// the reloads that may move a port under it (src/lisp/defuns/microgrids.rs). An
// event is what happens between two points where other tasks can run: where a
// lock is let go or a future awaits.
module StartProtocol {
  import opened Wrappers
  import opened MicrogridPorts

  type Site = nat

  datatype Fault = SiteReplaced | NoBind(port: Port) | ServerEnded

  datatype Status = Starting | Running | Failed(fault: Fault)

  // The host of every address is the same, so an address is its port.
  datatype Runtime = Runtime(status: Status, addr: Option<Port>, site: Site, generation: nat)

  datatype Entry = Entry(site: Site, port: Port)

  datatype Phase = Binding(port: Port) | Bound(port: Port) | Refused(port: Port)

  // The caller of `start` that holds the start lock, past the first critical section.
  datatype Attempt = Attempt(id: Id, generation: nat, phase: Phase)

  // A watcher awaits the end of the server of one attempt.
  datatype Watcher = Watcher(id: Id, generation: nat)

  // A reload that holds the registry lock and has settled on a port.
  datatype Reload = Reload(id: Id, port: Port)

  datatype State = State(
    ephemeral: bool,
    registry: map<Id, Entry>,
    runtimes: map<Id, Runtime>,
    attempt: Option<Attempt>,
    watchers: set<Watcher>,
    reload: Option<Reload>,
    sites: nat)

  // The port a make-microgrid asks for, if any, and those reserved at the time.
  datatype Ask = Ask(wanted: Option<Port>, reserved: set<Port>)

  datatype Event =
    | Register(id: Id, ask: Ask)                // make-microgrid with a new id
    | Decide(id: Id, ask: Ask)                  // make-microgrid again: the port is settled ...
    | Commit                                    // ... and the entry replaced
    | Unregister(id: Id)                        // the topology of a new one failed
    | Enter(id: Id)                             // start, up to the bind
    | BindOk(given: Port)                       // `given` is what the OS chose for port 0
    | BindError
    | Record                                    // the second critical section, and the server spawned
    | Report                                    // set_status after a failed bind
    | Cancel                                    // the future of start dropped at the bind
    | ServerEnds(watcher: Watcher)

  // Whether the port of `id` is held by its runtime.
  predicate Pinned(runtimes: map<Id, Runtime>, id: Id) {
    id in runtimes && (runtimes[id].addr.Some? || runtimes[id].status.Starting?)
  }

  function Claimed(registry: map<Id, Entry>): Claims { map id | id in registry :: registry[id].port }

  // The port a reload leaves the microgrid with: the one it has, where none is
  // asked for or its runtime holds that; none where the one asked for clashes.
  function ReloadPort(s: State, id: Id, ask: Ask): Option<Port>
    requires id in s.registry
  {
    var bound := s.registry[id].port;
    if ask.wanted.None? || ask.wanted.value == bound || Pinned(s.runtimes, id) then Some(bound)
    else if Clashes(Claimed(s.registry), ask.reserved, id, ask.wanted.value) then None
    else ask.wanted
  }

  // The port a new microgrid has.
  function NewPort(s: State, id: Id, ask: Ask): Option<Port> {
    if ask.wanted.None? then Some(NextFree(Claimed(s.registry).Values + ask.reserved, DEFAULT_GRPC_PORT))
    else if Clashes(Claimed(s.registry), ask.reserved, id, ask.wanted.value) then None
    else ask.wanted
  }

  // set_status: a watcher or attempt of an older generation changes nothing.
  function WithStatus(runtimes: map<Id, Runtime>, id: Id, generation: nat, status: Status): map<Id, Runtime> {
    if id in runtimes && runtimes[id].generation == generation then runtimes[id := runtimes[id].(status := status)]
    else runtimes
  }

  // What the first critical section tells its caller.
  datatype Reply = NotRegistered | Replaced | Already(addr: Option<Port>) | Try(attempt: Attempt)

  function ReplyTo(s: State, id: Id): Reply {
    if id !in s.registry then NotRegistered
    else if id !in s.runtimes then Try(Attempt(id, 1, Binding(FirstPort(s, id))))
    else
      var rt := s.runtimes[id];
      if rt.site != s.registry[id].site then Replaced
      else if rt.status.Running? then Already(rt.addr)
      else Try(Attempt(id, rt.generation + 1, Binding(if rt.addr.Some? then rt.addr.value else FirstPort(s, id))))
  }

  function FirstPort(s: State, id: Id): Port
    requires id in s.registry
  {
    if s.ephemeral then 0 else s.registry[id].port
  }

  // What it leaves in the table.
  function Entered(s: State, id: Id): map<Id, Runtime> {
    match ReplyTo(s, id)
    case NotRegistered => s.runtimes
    case Already(_) => s.runtimes
    case Replaced =>
      assert id in s.runtimes;
      var rt := s.runtimes[id];
      s.runtimes[id := rt.(generation := rt.generation + 1, status := Failed(SiteReplaced))]
    case Try(a) =>
      if id in s.runtimes then s.runtimes[id := s.runtimes[id].(generation := a.generation, status := Starting)]
      else
        assert id in s.registry;
        s.runtimes[id := Runtime(Starting, None, s.registry[id].site, a.generation)]
  }

  // The second critical section. Without a record it would panic.
  function Recorded(runtimes: map<Id, Runtime>, a: Attempt): map<Id, Runtime> {
    if a.id in runtimes then
      var rt := runtimes[a.id].(addr := Some(a.phase.port));
      runtimes[a.id := if rt.generation == a.generation then rt.(status := Running) else rt]
    else runtimes
  }

  predicate InPhase(s: State, e: Event) {
    s.attempt.Some? &&
    match s.attempt.value.phase
    case Binding(_) => e.BindOk? || e.BindError? || e.Cancel?
    case Bound(_) => e.Record?
    case Refused(_) => e.Report?
  }

  predicate InRange(ask: Ask) { ask.wanted.Some? ==> 0 < ask.wanted.value <= LAST_PORT }

  predicate Enabled(s: State, e: Event) {
    match e
    case Register(id, ask) => s.reload.None? && id !in s.registry && InRange(ask)
    case Decide(id, ask) => s.reload.None? && id in s.registry && InRange(ask)
    case Commit => s.reload.Some?
    case Unregister(id) => s.reload.None?
    case Enter(id) => s.reload.None? && s.attempt.None?
    case ServerEnds(w) => w in s.watchers
    case _ => InPhase(s, e)
  }

  function Next(s: State, e: Event): State
    requires Enabled(s, e)
  {
    match e
    case Register(id, ask) =>
      var port := NewPort(s, id, ask);
      if port.None? then s
      else s.(registry := s.registry[id := Entry(s.sites, port.value)], sites := s.sites + 1)
    case Decide(id, ask) =>
      var port := ReloadPort(s, id, ask);
      if port.None? then s else s.(reload := Some(Reload(id, port.value)))
    case Commit =>
      var r := s.reload.value;
      s.(reload := None,
         registry := if r.id in s.registry then s.registry[r.id := s.registry[r.id].(port := r.port)] else s.registry)
    case Unregister(id) => s.(registry := s.registry - {id})
    case Enter(id) =>
      var reply := ReplyTo(s, id);
      s.(runtimes := Entered(s, id), attempt := if reply.Try? then Some(reply.attempt) else None)
    case BindOk(given) =>
      var a := s.attempt.value;
      s.(attempt := Some(a.(phase := Bound(if a.phase.port == 0 then given else a.phase.port))))
    case BindError =>
      var a := s.attempt.value;
      s.(attempt := Some(a.(phase := Refused(a.phase.port))))
    case Record =>
      var a := s.attempt.value;
      s.(runtimes := Recorded(s.runtimes, a), watchers := s.watchers + {Watcher(a.id, a.generation)}, attempt := None)
    case Report =>
      var a := s.attempt.value;
      s.(runtimes := WithStatus(s.runtimes, a.id, a.generation, Failed(NoBind(a.phase.port))), attempt := None)
    case Cancel => s.(attempt := None)
    case ServerEnds(w) =>
      s.(runtimes := WithStatus(s.runtimes, w.id, w.generation, Failed(ServerEnded)), watchers := s.watchers - {w})
  }

  // ---------------------------------------------------------------- invariants

  // A running microgrid has an address.
  ghost predicate RunningHasAddr(s: State) {
    forall id | id in s.runtimes && s.runtimes[id].status.Running? :: s.runtimes[id].addr.Some?
  }

  // While an attempt binds, its record is Starting at its generation: it is there
  // to be updated, and the guard before Running holds.
  ghost predicate AttemptHolds(s: State) {
    s.attempt.Some? ==>
      var a := s.attempt.value;
      && a.id in s.runtimes
      && s.runtimes[a.id].status == Starting && s.runtimes[a.id].generation == a.generation
      && (s.runtimes[a.id].addr.Some? && s.runtimes[a.id].addr.value > 0 ==>
            a.phase.port == s.runtimes[a.id].addr.value)
  }

  // A watcher is of an earlier generation than an attempt in progress, and of
  // none that is still to come.
  ghost predicate WatchersLag(s: State) {
    forall w | w in s.watchers ::
      && w.id in s.runtimes && w.generation <= s.runtimes[w.id].generation
      && (s.attempt.Some? && s.attempt.value.id == w.id ==> w.generation < s.runtimes[w.id].generation)
  }

  ghost predicate SitesKnown(s: State) {
    && (forall id | id in s.registry :: s.registry[id].site < s.sites && s.registry[id].port > 0)
    && forall id | id in s.runtimes :: s.runtimes[id].site < s.sites
  }

  // The registry lock is held, so what the reload settled on still stands: it
  // moves no port that is pinned.
  ghost predicate ReloadStands(s: State) {
    s.reload.Some? ==>
      var r := s.reload.value;
      && r.id in s.registry && r.port > 0
      && (Pinned(s.runtimes, r.id) ==> r.port == s.registry[r.id].port)
  }

  ghost predicate Inv(s: State) {
    RunningHasAddr(s) && AttemptHolds(s) && WatchersLag(s) && SitesKnown(s) && ReloadStands(s) && PortsAgree(s)
  }

  // With declared ports: a microgrid is bound, or being bound, at the port its
  // entry declares, for as long as the entry is of the same site.
  ghost predicate PortsAgree(s: State) {
    !s.ephemeral ==>
      && (forall id | id in s.runtimes && s.runtimes[id].addr.Some? :: s.runtimes[id].addr.value > 0)
      && (s.attempt.Some? ==> s.attempt.value.phase.port > 0)
      && (forall id | SameSite(s, id) && s.runtimes[id].addr.Some? :: s.runtimes[id].addr.value == s.registry[id].port)
      && (s.attempt.Some? && SameSite(s, s.attempt.value.id) ==>
            s.attempt.value.phase.port == s.registry[s.attempt.value.id].port)
  }

  predicate SameSite(s: State, id: Id) {
    id in s.runtimes && id in s.registry && s.runtimes[id].site == s.registry[id].site
  }

  ghost predicate Start(s: State) {
    && s.runtimes == map[] && s.attempt.None? && s.watchers == {} && s.reload.None?
    && forall id | id in s.registry :: s.registry[id].site < s.sites && s.registry[id].port > 0
  }

  lemma StartHolds(s: State)
    requires Start(s)
    ensures Inv(s)
  {
  }

  lemma {:induction false} InvKept(s: State, e: Event)
    requires Inv(s) && Enabled(s, e)
    ensures Inv(Next(s, e))
  {
    match e
    case Register(id, ask) => RegisterKeeps(s, id, ask);
    case Decide(id, ask) => DecideKeeps(s, id, ask);
    case Commit =>
    case Unregister(_) =>
    case Enter(id) => EnterKeeps(s, id);
    case BindOk(_) =>
    case BindError =>
    case Record => RecordKeeps(s);
    case Report => ReportKeeps(s);
    case Cancel =>
    case ServerEnds(w) => ServerEndsKeeps(s, w);
  }

  lemma RegisterKeeps(s: State, id: Id, ask: Ask)
    requires Inv(s) && Enabled(s, Register(id, ask))
    ensures Inv(Next(s, Register(id, ask)))
  {
  }

  lemma DecideKeeps(s: State, id: Id, ask: Ask)
    requires Inv(s) && Enabled(s, Decide(id, ask))
    ensures Inv(Next(s, Decide(id, ask)))
  {
  }

  lemma EnterKeeps(s: State, id: Id)
    requires Inv(s) && Enabled(s, Enter(id))
    ensures Inv(Next(s, Enter(id)))
  {
  }

  lemma RecordKeeps(s: State)
    requires Inv(s) && Enabled(s, Record)
    ensures Inv(Next(s, Record))
  {
  }

  lemma ReportKeeps(s: State)
    requires Inv(s) && Enabled(s, Report)
    ensures Inv(Next(s, Report))
  {
  }

  lemma ServerEndsKeeps(s: State, w: Watcher)
    requires Inv(s) && Enabled(s, ServerEnds(w))
    ensures Inv(Next(s, ServerEnds(w)))
  {
  }

  // -------------------------------------------------------------------- a step

  // The attempt about to record is expected by its record: no panic, and Running
  // is always set.
  lemma RecordIsGuarded(s: State)
    requires Inv(s) && Enabled(s, Record)
    ensures var a := s.attempt.value;
            && a.id in s.runtimes && s.runtimes[a.id].generation == a.generation
            && var rt := Next(s, Record).runtimes[a.id];
            rt.status == Running && rt.addr == Some(a.phase.port) && rt.generation == a.generation
  {
  }

  // The end of a server that is not the latest leaves the table as it is.
  lemma OldWatcherIsIdle(s: State, w: Watcher)
    requires Inv(s) && Enabled(s, ServerEnds(w))
    ensures w.id in s.runtimes
    ensures w.generation < s.runtimes[w.id].generation ==> Next(s, ServerEnds(w)).runtimes == s.runtimes
    ensures s.attempt.Some? && s.attempt.value.id == w.id ==> Next(s, ServerEnds(w)).runtimes == s.runtimes
  {
  }

  // The end of the latest server fails its record, unless a later attempt is under
  // way, and touches no other record and no other field.
  lemma LatestWatcherFails(s: State, w: Watcher)
    requires Inv(s) && Enabled(s, ServerEnds(w)) && w.generation == s.runtimes[w.id].generation
    ensures Next(s, ServerEnds(w)).runtimes == s.runtimes[w.id := s.runtimes[w.id].(status := Failed(ServerEnded))]
    ensures Next(s, ServerEnds(w)).watchers == s.watchers - {w}
  {
  }

  // The end of a start whose bind was refused: its record fails, with the port that
  // could not be bound, and nothing else changes.
  lemma ReportFails(s: State)
    requires Inv(s) && Enabled(s, Report)
    ensures var a := s.attempt.value;
            && Next(s, Report).runtimes
               == s.runtimes[a.id := s.runtimes[a.id].(status := Failed(NoBind(a.phase.port)))]
            && Next(s, Report).attempt == None
  {
  }

  // The port a start of a registered microgrid binds.
  ghost predicate Binds(s: State, id: Id, port: Port)
    requires id in s.registry
  {
    if id in s.runtimes && s.runtimes[id].addr.Some? then port == s.runtimes[id].addr.value
    else if s.ephemeral then port == 0
    else port == s.registry[id].port
  }

  // A start that is tried, from the lock to the end, when the bind works and tells
  // `given` for port 0: the microgrid runs, at the port bound, with a watcher of
  // the attempt; no other record changes.
  lemma StartSucceeds(s: State, id: Id, given: Port) returns (port: Port, generation: nat)
    requires Inv(s) && Enabled(s, Enter(id)) && ReplyTo(s, id).Try?
    ensures Binds(s, id, port) && generation == if id in s.runtimes then s.runtimes[id].generation + 1 else 1
    ensures Enabled(Next(s, Enter(id)), BindOk(given))
    ensures var bound := Next(Next(s, Enter(id)), BindOk(given));
            Enabled(bound, Record)
            && Next(bound, Record) == s.(
                 runtimes := s.runtimes[id := Runtime(Running, Some(if port == 0 then given else port),
                                                      s.registry[id].site, generation)],
                 watchers := s.watchers + {Watcher(id, generation)})
  {
    port, generation := ReplyTo(s, id).attempt.phase.port, ReplyTo(s, id).attempt.generation;
    var bound := Next(Next(s, Enter(id)), BindOk(given));
    assert Next(bound, Record).runtimes
        == s.runtimes[id := Runtime(Running, Some(if port == 0 then given else port), s.registry[id].site, generation)];
  }

  // And when the bind is refused: the record fails, its address is as it was.
  lemma StartRefused(s: State, id: Id) returns (port: Port, generation: nat)
    requires Inv(s) && Enabled(s, Enter(id)) && ReplyTo(s, id).Try?
    ensures Binds(s, id, port) && generation == if id in s.runtimes then s.runtimes[id].generation + 1 else 1
    ensures Enabled(Next(s, Enter(id)), BindError)
    ensures var refused := Next(Next(s, Enter(id)), BindError);
            Enabled(refused, Report)
            && Next(refused, Report) == s.(
                 runtimes := s.runtimes[id := Runtime(Failed(NoBind(port)),
                                                      if id in s.runtimes then s.runtimes[id].addr else None,
                                                      s.registry[id].site, generation)])
  {
    port, generation := ReplyTo(s, id).attempt.phase.port, ReplyTo(s, id).attempt.generation;
    var refused := Next(Next(s, Enter(id)), BindError);
    assert Next(refused, Report).runtimes
        == s.runtimes[id := Runtime(Failed(NoBind(port)), if id in s.runtimes then s.runtimes[id].addr else None,
                                    s.registry[id].site, generation)];
  }

  // A start that finds another site in its record: the record fails, for a new
  // generation, and nothing is bound.
  lemma StartReplaced(s: State, id: Id)
    requires Inv(s) && s.reload.None? && s.attempt.None? && id in s.registry && id in s.runtimes
    requires s.runtimes[id].site != s.registry[id].site
    ensures Enabled(s, Enter(id)) && ReplyTo(s, id) == Replaced
    ensures var rt := s.runtimes[id];
            Next(s, Enter(id)) == s.(
              runtimes := s.runtimes[id := Runtime(Failed(SiteReplaced), rt.addr, rt.site, rt.generation + 1)])
  {
    var rt := s.runtimes[id];
    assert Next(s, Enter(id)).runtimes == s.runtimes[id := Runtime(Failed(SiteReplaced), rt.addr, rt.site, rt.generation + 1)];
  }

  // One that finds its microgrid running, or not registered, changes nothing.
  lemma StartAnswered(s: State, id: Id)
    requires Inv(s) && s.reload.None? && s.attempt.None?
    requires id !in s.registry || (SameSite(s, id) && s.runtimes[id].status.Running?)
    ensures Enabled(s, Enter(id)) && Next(s, Enter(id)) == s
    ensures ReplyTo(s, id) == if id in s.registry then Already(s.runtimes[id].addr) else NotRegistered
  {
  }

  // No record waits for an attempt that is not there.
  ghost predicate NoneStuck(s: State) {
    forall id | id in s.runtimes && s.runtimes[id].status.Starting? :: s.attempt.Some? && s.attempt.value.id == id
  }

  // Only a start dropped at its bind leaves one: its record stays Starting, and
  // its port pinned, until the next start.
  lemma {:induction false} StuckWhen(s: State, e: Event)
    requires Inv(s) && Enabled(s, e) && NoneStuck(s)
    ensures NoneStuck(Next(s, e)) <==> !e.Cancel?
  {
    if e.Cancel? { assert s.runtimes[s.attempt.value.id].status.Starting?; }
  }

  // What one event may do to a record: it stays, on its site, with a generation
  // no smaller and, unless it was port 0, its address.
  ghost predicate Grows(before: map<Id, Runtime>, after: map<Id, Runtime>, id: Id) {
    id in before ==>
      && id in after
      && before[id].generation <= after[id].generation
      && before[id].site == after[id].site
      && (before[id].addr.Some? ==> after[id].addr.Some?)
      && (before[id].addr.Some? && before[id].addr.value > 0 ==> after[id].addr == before[id].addr)
  }

  lemma {:induction false} StepGrows(s: State, e: Event, id: Id)
    requires Inv(s) && Enabled(s, e)
    ensures Grows(s.runtimes, Next(s, e).runtimes, id)
  {
  }

  // A pinned port is not moved: no event changes the port of an entry whose
  // runtime is bound or starting, short of removing the entry.
  lemma {:induction false} PinnedPortStays(s: State, e: Event, id: Id)
    requires Inv(s) && Enabled(s, e) && id in s.registry && Pinned(s.runtimes, id)
    ensures var after := Next(s, e);
            id in after.registry ==> after.registry[id] == s.registry[id]
  {
  }

  // -------------------------------------------------------------------- a run

  ghost predicate Run(states: seq<State>, events: seq<Event>) {
    && |states| == |events| + 1 && Start(states[0])
    && forall i | 0 <= i < |events| :: StepAt(states, events, i)
  }

  ghost predicate StepAt(states: seq<State>, events: seq<Event>, i: nat)
    requires i < |events| && |states| == |events| + 1
  {
    Enabled(states[i], events[i]) && states[i + 1] == Next(states[i], events[i])
  }

  lemma {:induction false} InvAlong(states: seq<State>, events: seq<Event>, i: nat)
    requires Run(states, events) && i < |states|
    ensures Inv(states[i])
  {
    if i == 0 {
      StartHolds(states[0]);
    } else {
      InvAlong(states, events, i - 1);
      assert StepAt(states, events, i - 1);
      InvKept(states[i - 1], events[i - 1]);
    }
  }

  // Over a whole run: generations only grow, a record's site is fixed, and so is
  // its address once it is recorded, unless that was port 0.
  lemma {:induction false} RunGrows(states: seq<State>, events: seq<Event>, i: nat, j: nat, id: Id)
    requires Run(states, events) && i <= j < |states|
    ensures Grows(states[i].runtimes, states[j].runtimes, id)
    decreases j
  {
    if i < j {
      RunGrows(states, events, i, j - 1, id);
      StepInRun(states, events, j - 1, id);
      GrowsOn(states[i].runtimes, states[j - 1].runtimes, states[j].runtimes, id);
    }
  }

  lemma StepInRun(states: seq<State>, events: seq<Event>, i: nat, id: Id)
    requires Run(states, events) && i < |events|
    ensures Grows(states[i].runtimes, states[i + 1].runtimes, id)
  {
    InvAlong(states, events, i);
    assert StepAt(states, events, i);
    StepGrows(states[i], events[i], id);
  }

  lemma GrowsOn(before: map<Id, Runtime>, between: map<Id, Runtime>, after: map<Id, Runtime>, id: Id)
    requires Grows(before, between, id) && Grows(between, after, id)
    ensures Grows(before, after, id)
  {
  }

  // Over a run in which no start is dropped at its bind, no record is Starting but
  // that of the attempt in progress.
  lemma {:induction false} NeverStuck(states: seq<State>, events: seq<Event>, i: nat)
    requires Run(states, events) && i < |states| && forall k | 0 <= k < i :: !events[k].Cancel?
    ensures NoneStuck(states[i])
  {
    if i > 0 {
      NeverStuck(states, events, i - 1);
      InvAlong(states, events, i - 1);
      assert StepAt(states, events, i - 1);
      StuckWhen(states[i - 1], events[i - 1]);
    }
  }

  lemma {:induction false} OptionsStay(states: seq<State>, events: seq<Event>, i: nat)
    requires Run(states, events) && i < |states|
    ensures states[i].ephemeral == states[0].ephemeral
  {
    if i > 0 {
      OptionsStay(states, events, i - 1);
      assert StepAt(states, events, i - 1);
    }
  }

  // With declared ports the address never changes at all, and it is the port the
  // entry declares, now and later, reloads or not.
  lemma DeclaredPortStays(states: seq<State>, events: seq<Event>, i: nat, j: nat, id: Id)
    requires Run(states, events) && i <= j < |states| && !states[0].ephemeral
    requires id in states[i].runtimes && states[i].runtimes[id].addr.Some?
    ensures id in states[j].runtimes && states[j].runtimes[id].addr == states[i].runtimes[id].addr
    ensures SameSite(states[j], id) ==> states[j].registry[id].port == states[i].runtimes[id].addr.value
  {
    InvAlong(states, events, i);
    InvAlong(states, events, j);
    OptionsStay(states, events, i);
    OptionsStay(states, events, j);
    RunGrows(states, events, i, j, id);
  }

  // Exactly when a recorded address moves: it is port 0, noted because the
  // listener could not tell its port, and a later bind is told one.
  lemma {:induction false} OnlyZeroMoves(s: State, e: Event, id: Id)
    requires Inv(s) && Enabled(s, e) && id in s.runtimes && s.runtimes[id].addr.Some?
    ensures Next(s, e).runtimes[id].addr != s.runtimes[id].addr
        <==> e.Record? && s.attempt.value.id == id && s.runtimes[id].addr == Some(0) && s.attempt.value.phase.port > 0
  {
    StepGrows(s, e, id);
  }

  lemma Extend(states: seq<State>, events: seq<Event>, e: Event, to: State)
    requires Run(states, events) && Enabled(states[|events|], e) && to == Next(states[|events|], e)
    ensures Run(states + [to], events + [e])
  {
    var ss, es := states + [to], events + [e];
    forall i | 0 <= i < |es| ensures StepAt(ss, es, i) {
      if i < |events| {
        assert StepAt(states, events, i);
        assert ss[i] == states[i] && ss[i + 1] == states[i + 1] && es[i] == events[i];
      }
    }
  }

  // One start that binds port 0 and is told `given`, from a table that holds what
  // was recorded before, if anything.
  lemma BindAgain(states: seq<State>, events: seq<Event>, id: Id, given: Port)
    returns (states': seq<State>, events': seq<Event>)
    requires Run(states, events)
    requires var s := states[|events|];
             && s.ephemeral && Enabled(s, Enter(id)) && ReplyTo(s, id).Try?
             && (id in s.runtimes ==> s.runtimes[id].addr == Some(0))
    ensures Run(states', events') && |events'| == |events| + 3 && states <= states'
    ensures var s := states'[|events'|];
            && s.ephemeral && s.registry == states[|events|].registry && s.reload.None? && s.attempt.None?
            && id in s.runtimes && s.runtimes[id].status == Running && s.runtimes[id].addr == Some(given)
            && Watcher(id, s.runtimes[id].generation) in s.watchers
            && SameSite(s, id)
  {
    var s0 := states[|events|];
    InvAlong(states, events, |events|);
    var s1 := Next(s0, Enter(id));
    var s2 := Next(s1, BindOk(given));
    var s3 := Next(s2, Record);
    Extend(states, events, Enter(id), s1);
    Extend(states + [s1], events + [Enter(id)], BindOk(given), s2);
    Extend(states + [s1] + [s2], events + [Enter(id)] + [BindOk(given)], Record, s3);
    states', events' := states + [s1] + [s2] + [s3], events + [Enter(id)] + [BindOk(given)] + [Record];
  }

  // And a run in which it does: the OS chose the port of both binds, and only the
  // second listener could tell it.
  lemma ZeroMoves() returns (states: seq<State>, events: seq<Event>, i: nat, j: nat)
    ensures Run(states, events) && i <= j < |states|
    ensures 7 in states[i].runtimes && states[i].runtimes[7].addr == Some(0)
    ensures 7 in states[j].runtimes && states[j].runtimes[7].addr == Some(5001)
  {
    var s0 := State(true, map[7 := Entry(0, 8800)], map[], None, {}, None, 1);
    states, events := [s0], [];
    states, events := BindAgain(states, events, 7, 0);
    i := |events|;
    var s := states[i];
    var ends := ServerEnds(Watcher(7, s.runtimes[7].generation));
    Extend(states, events, ends, Next(s, ends));
    states, events := BindAgain(states + [Next(s, ends)], events + [ends], 7, 5001);
    j := |events|;
  }

  // A start that is answered from the table gets the address first recorded.
  lemma StartAgain(states: seq<State>, events: seq<Event>, i: nat, j: nat, id: Id)
    requires Run(states, events) && i <= j < |states|
    requires id in states[i].runtimes && states[i].runtimes[id].addr.Some? && states[i].runtimes[id].addr.value > 0
    ensures ReplyTo(states[j], id).Already? ==> ReplyTo(states[j], id).addr == states[i].runtimes[id].addr
    ensures ReplyTo(states[j], id).Try? ==> ReplyTo(states[j], id).attempt.phase.port == states[i].runtimes[id].addr.value
  {
    RunGrows(states, events, i, j, id);
  }

  // An answer from the table always names an address; and a registered microgrid
  // that is neither running nor on a replaced site can be tried again, at a
  // generation no watcher has, whatever a failure or a cancelled attempt left.
  lemma StartAnswers(s: State, id: Id)
    requires Inv(s) && id in s.registry
    ensures ReplyTo(s, id).Already? ==> ReplyTo(s, id).addr.Some?
    ensures ReplyTo(s, id).Try? <==> id !in s.runtimes || (SameSite(s, id) && !s.runtimes[id].status.Running?)
    ensures ReplyTo(s, id).Try? ==> Watcher(id, ReplyTo(s, id).attempt.generation) !in s.watchers
  {
  }

  // A replaced site: the record is failed, and no watcher there is can touch it.
  lemma ReplacedStays(s: State, id: Id, w: Watcher)
    requires Inv(s) && Enabled(s, Enter(id)) && ReplyTo(s, id).Replaced? && w in s.watchers
    ensures var after := Next(s, Enter(id));
            && Enabled(after, ServerEnds(w))
            && after.runtimes[id].status == Failed(SiteReplaced)
            && Next(after, ServerEnds(w)).runtimes[id] == after.runtimes[id]
  {
    InvKept(s, Enter(id));
  }

  // ------------------------------------------------------------ what is declared

  // Another microgrid has the port, or it is reserved.
  ghost predicate InUse(s: State, id: Id, port: Port, reserved: set<Port>) {
    port in reserved || exists other :: other in s.registry && other != id && s.registry[other].port == port
  }

  lemma InUseIsClash(s: State, id: Id, port: Port, reserved: set<Port>)
    ensures InUse(s, id, port, reserved) <==> Clashes(Claimed(s.registry), reserved, id, port)
  {
    if other :| other in s.registry && other != id && s.registry[other].port == port {
      assert Claimed(s.registry)[other] == port;
    }
  }

  // A reload that asks for another port: refused, with nothing changed, where the
  // port is in use; adopted otherwise, unless the runtime holds the one it has.
  lemma ReloadMovesPort(s: State, id: Id, port: Port, reserved: set<Port>)
    requires Inv(s) && s.reload.None? && id in s.registry && 1 <= port <= 65535 && port != s.registry[id].port
    ensures Enabled(s, Decide(id, Ask(Some(port), reserved)))
    ensures var decided, held := Next(s, Decide(id, Ask(Some(port), reserved))), s.registry[id].port;
            if Pinned(s.runtimes, id) then decided == s.(reload := Some(Reload(id, held)))
            else if InUse(s, id, port, reserved) then decided == s
            else decided == s.(reload := Some(Reload(id, port)))
  {
    InUseIsClash(s, id, port, reserved);
  }

  // One that asks for none, or for the port it has, keeps it.
  lemma ReloadKeepsPort(s: State, id: Id, ask: Ask)
    requires Inv(s) && Enabled(s, Decide(id, ask)) && (ask.wanted.Some? ==> ask.wanted.value == s.registry[id].port)
    ensures Next(s, Decide(id, ask)) == s.(reload := Some(Reload(id, s.registry[id].port)))
  {
  }

  // What a reload settled on is what the entry then declares; its site stays.
  lemma CommitDeclares(s: State)
    requires Inv(s) && Enabled(s, Commit)
    ensures var r := s.reload.value;
            Next(s, Commit) == s.(reload := None, registry := s.registry[r.id := Entry(s.registry[r.id].site, r.port)])
  {
  }

  // A new microgrid has a site of its own, and the port it asks for unless that is
  // in use; then nothing changes.
  lemma RegisterDeclares(s: State, id: Id, port: Port, reserved: set<Port>)
    requires Inv(s) && s.reload.None? && id !in s.registry && 1 <= port <= 65535
    ensures Enabled(s, Register(id, Ask(Some(port), reserved)))
    ensures var after := Next(s, Register(id, Ask(Some(port), reserved)));
            if InUse(s, id, port, reserved) then after == s
            else after == s.(registry := s.registry[id := Entry(s.sites, port)], sites := s.sites + 1)
    ensures forall other | other in s.registry :: s.registry[other].site != s.sites
  {
    InUseIsClash(s, id, port, reserved);
  }

  // --------------------------------------------------------------- ports differ

  // No two microgrids claim one port, and a reload has settled on one that no
  // other claims.
  ghost predicate PortsDiffer(s: State) {
    && (forall a, b | a in s.registry && b in s.registry && a != b :: s.registry[a].port != s.registry[b].port)
    && (s.reload.Some? ==> !ClaimedByOther(Claimed(s.registry), s.reload.value.id, s.reload.value.port))
  }

  // A new microgrid asks for no port, every port tried is taken, and the last one
  // is another microgrid's.
  predicate RunsOut(s: State, e: Event) {
    && e.Register? && e.ask.wanted.None?
    && Full(Claimed(s.registry).Values + e.ask.reserved) && LAST_PORT in Claimed(s.registry).Values
  }

  // Every event keeps the ports apart, but for one case: then, and only then, two
  // microgrids come to claim the last port.
  lemma PortsStayApart(s: State, e: Event)
    requires Inv(s) && Enabled(s, e) && PortsDiffer(s)
    ensures PortsDiffer(Next(s, e)) <==> !RunsOut(s, e)
  {
    match e
    case Register(id, ask) => RegisterApart(s, id, ask);
    case Decide(id, ask) => DecideApart(s, id, ask);
    case Commit => CommitApart(s);
    case Unregister(_) =>
    case _ => assert Next(s, e).registry == s.registry && Next(s, e).reload == s.reload;
  }

  lemma RegisterApart(s: State, id: Id, ask: Ask)
    requires Inv(s) && Enabled(s, Register(id, ask)) && PortsDiffer(s)
    ensures PortsDiffer(Next(s, Register(id, ask))) <==> !RunsOut(s, Register(id, ask))
  {
    var port, claims := NewPort(s, id, ask), Claimed(s.registry);
    NextFreeIsFree(claims.Values + ask.reserved);
    if port.Some? {
      assert ClaimedByOther(claims, id, port.value) <==> port.value in claims.Values;
      NewPortApart(s, id, port.value, Next(s, Register(id, ask)));
    }
  }

  lemma NewPortApart(s: State, id: Id, port: Port, t: State)
    requires PortsDiffer(s) && id !in s.registry && s.reload.None?
    requires t == s.(registry := s.registry[id := Entry(s.sites, port)], sites := s.sites + 1)
    ensures PortsDiffer(t) <==> !ClaimedByOther(Claimed(s.registry), id, port)
  {
    if ClaimedByOther(Claimed(s.registry), id, port) {
      var other :| other in s.registry && other != id && s.registry[other].port == port;
      assert t.registry[other].port == t.registry[id].port;
    } else {
      forall other | other in s.registry ensures s.registry[other].port != port {
        assert Claimed(s.registry)[other] == s.registry[other].port;
      }
    }
  }

  lemma DecideApart(s: State, id: Id, ask: Ask)
    requires Inv(s) && Enabled(s, Decide(id, ask)) && PortsDiffer(s)
    ensures PortsDiffer(Next(s, Decide(id, ask)))
  {
    var port := ReloadPort(s, id, ask);
    if port.Some? && port.value == s.registry[id].port {
      assert !ClaimedByOther(Claimed(s.registry), id, port.value);
    }
  }

  lemma CommitApart(s: State)
    requires Inv(s) && Enabled(s, Commit) && PortsDiffer(s)
    ensures PortsDiffer(Next(s, Commit))
  {
    var r := s.reload.value;
    forall other | other in s.registry && other != r.id ensures s.registry[other].port != r.port {
      assert Claimed(s.registry)[other] == s.registry[other].port;
    }
  }

  // It can come to that: here every port tried is a microgrid's.
  lemma PortsRunOut() returns (s: State, e: Event)
    ensures Start(s) && PortsDiffer(s) && Enabled(s, e) && RunsOut(s, e) && !PortsDiffer(Next(s, e))
  {
    var registry := map id: nat | id <= LAST_PORT && Tried(id) :: Entry(0, id);
    s, e := State(true, registry, map[], None, {}, None, 1), Register(1, Ask(None, {}));
    forall p: Port | p <= LAST_PORT && Tried(p) ensures p in Claimed(registry).Values {
      assert Claimed(registry)[p] == p;
    }
    StartHolds(s);
    PortsStayApart(s, e);
  }

  // So over any run in which no new microgrid finds every port taken.
  lemma {:induction false} PortsApart(states: seq<State>, events: seq<Event>, i: nat)
    requires Run(states, events) && i < |states| && PortsDiffer(states[0])
    requires forall k | 0 <= k < i :: !RunsOut(states[k], events[k])
    ensures PortsDiffer(states[i])
  {
    if i > 0 {
      PortsApart(states, events, i - 1);
      InvAlong(states, events, i - 1);
      assert StepAt(states, events, i - 1);
      PortsStayApart(states[i - 1], events[i - 1]);
    }
  }

  // ------------------------------------------------------------- the shared state

  // What the tasks share: the registry, the table of runtimes, and who is at work
  // on them.
  class Inner {
    const ephemeral: bool
    var registry: map<Id, Entry>
    var runtimes: map<Id, Runtime>
    var attempt: Option<Attempt>
    var watchers: set<Watcher>
    var reload: Option<Reload>
    var sites: nat

    constructor (ephemeral: bool, registry: map<Id, Entry>, sites: nat)
      requires forall id | id in registry :: registry[id].site < sites && registry[id].port > 0
      ensures Start(Now()) && this.ephemeral == ephemeral && this.registry == registry && this.sites == sites
    {
      this.ephemeral, this.registry, this.sites := ephemeral, registry, sites;
      runtimes, attempt, watchers, reload := map[], None, {}, None;
    }

    ghost function Now(): State
      reads this
    {
      State(ephemeral, registry, runtimes, attempt, watchers, reload, sites)
    }

    // The check a reload asks.
    method PortPinned(id: Id) returns (pinned: bool)
      ensures pinned == Pinned(runtimes, id)
    {
      if id in runtimes {
        pinned := runtimes[id].addr.Some? || runtimes[id].status.Starting?;
      } else {
        pinned := false;
      }
    }

    method SetStatus(id: Id, generation: nat, status: Status)
      modifies this`runtimes
      ensures runtimes == WithStatus(old(runtimes), id, generation, status)
    {
      if id in runtimes && runtimes[id].generation == generation {
        runtimes := runtimes[id := runtimes[id].(status := status)];
      }
    }

    // start, from the lock to the bind.
    method Enter(id: Id) returns (reply: Reply)
      requires Enabled(Now(), Event.Enter(id))
      modifies this
      ensures Now() == Next(old(Now()), Event.Enter(id)) && reply == ReplyTo(old(Now()), id)
    {
      if id !in registry { return NotRegistered; }
      var e := registry[id];
      var fixed: Option<Port>, generation: nat := None, 1;
      if id in runtimes {
        var rt := runtimes[id];
        if rt.site != e.site {
          runtimes := runtimes[id := rt.(generation := rt.generation + 1, status := Failed(SiteReplaced))];
          return Replaced;
        }
        if rt.status.Running? { return Already(rt.addr); }
        fixed, generation := rt.addr, rt.generation + 1;
        runtimes := runtimes[id := rt.(status := Starting, generation := generation)];
      } else {
        runtimes := runtimes[id := Runtime(Starting, None, e.site, 1)];
      }
      var port := if fixed.Some? then fixed.value else if ephemeral then 0 else e.port;
      attempt := Some(Attempt(id, generation, Binding(port)));
      reply := Try(attempt.value);
    }

    // start, from a bind that worked to the end. The lookup cannot fail.
    method Record()
      requires Inv(Now()) && Enabled(Now(), Event.Record)
      modifies this
      ensures Now() == Next(old(Now()), Event.Record)
      ensures runtimes[old(attempt).value.id].status == Running
    {
      var a := attempt.value;
      RecordIsGuarded(Now());
      var rt := runtimes[a.id].(addr := Some(a.phase.port));
      if rt.generation == a.generation { rt := rt.(status := Running); }
      runtimes := runtimes[a.id := rt];
      watchers := watchers + {Watcher(a.id, a.generation)};
      attempt := None;
    }

    method Report()
      requires Enabled(Now(), Event.Report)
      modifies this
      ensures Now() == Next(old(Now()), Event.Report)
    {
      var a := attempt.value;
      SetStatus(a.id, a.generation, Failed(NoBind(a.phase.port)));
      attempt := None;
    }

    method WatchServer(w: Watcher)
      requires Enabled(Now(), ServerEnds(w))
      modifies this
      ensures Now() == Next(old(Now()), ServerEnds(w))
    {
      SetStatus(w.id, w.generation, Failed(ServerEnded));
      watchers := watchers - {w};
    }

    // Whether a port may be had, and the error if not.
    method PortClashOf(id: Id, ask: Ask) returns (clash: Option<PortClash>)
      ensures clash.Some? <==> ask.wanted.Some? && Clashes(Claimed(registry), ask.reserved, id, ask.wanted.value)
    {
      clash := None;
      if ask.wanted.Some? { clash := CheckPort(Claimed(registry), ask.reserved, id, ask.wanted.value); }
    }

    // make-microgrid on a registered id, up to the new entry.
    method DecidePort(id: Id, ask: Ask) returns (clash: Option<PortClash>)
      requires Enabled(Now(), Decide(id, ask))
      modifies this
      ensures Now() == Next(old(Now()), Decide(id, ask))
      ensures clash.Some? <==> ReloadPort(old(Now()), id, ask).None?
    {
      var port := registry[id].port;
      clash := None;
      if ask.wanted.Some? && ask.wanted.value != port {
        var pinned := PortPinned(id);
        if !pinned {
          clash := PortClashOf(id, ask);
          if clash.Some? { return; }
          port := ask.wanted.value;
        }
      }
      reload := Some(Reload(id, port));
    }

    // make-microgrid with a new id; `used` is every port claimed or reserved, in
    // order.
    method Register(id: Id, ask: Ask, used: seq<Port>) returns (clash: Option<PortClash>)
      requires Enabled(Now(), Event.Register(id, ask))
      requires Sorted(used) && PortSet(used) == Claimed(registry).Values + ask.reserved && forall p | p in used :: p <= LAST_PORT
      modifies this
      ensures Now() == Next(old(Now()), Event.Register(id, ask))
      ensures clash.Some? <==> NewPort(old(Now()), id, ask).None?
    {
      clash := PortClashOf(id, ask);
      if clash.Some? { return; }
      var port;
      if ask.wanted.Some? { port := ask.wanted.value; } else { port := NextFreePortIn(used); }
      registry := registry[id := Entry(sites, port)];
      sites := sites + 1;
    }
  }
}
