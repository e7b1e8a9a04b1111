// A dispatch stream (src/dispatch_server.rs, stream_microgrid_dispatches): it
// subscribes, takes a snapshot, replays that, and follows a bounded broadcast.
// However the steps interleave with changes to the store, what the client has
// folded so far and what is still on its way add up to what the store holds.
module DispatchStream {
  import opened Wrappers
  import opened DispatchStore

  // The broadcast ring, and the channel to the client.
  const BUS := 256
  const CHANNEL := 64

  datatype Msg = Data(change: Change, dispatch: Dispatch) | DataLoss

  function ApplyMsg(m: Kept, msg: Msg): Kept {
    match msg
    case Data(change, d) => Apply(m, change, d)
    case DataLoss => m
  }

  // What a client makes of messages read in order.
  function Fold(m: Kept, msgs: seq<Msg>): Kept
    decreases |msgs|
  {
    if msgs == [] then m else Fold(ApplyMsg(m, msgs[0]), msgs[1..])
  }

  lemma {:induction false} FoldJoin(m: Kept, a: seq<Msg>, b: seq<Msg>)
    ensures Fold(m, a + b) == Fold(Fold(m, a), b)
    decreases |a|
  {
    if a == [] {
      assert a + b == b;
    } else {
      assert (a + b)[0] == a[0] && (a + b)[1..] == a[1..] + b;
      FoldJoin(ApplyMsg(m, a[0]), a[1..], b);
    }
  }

  lemma FoldOne(m: Kept, msg: Msg)
    ensures Fold(m, [msg]) == ApplyMsg(m, msg)
  {
    assert [msg][1..] == [];
  }

  // The messages the changes of one microgrid become.
  function Msgs(log: seq<Event>, mg: Mg): seq<Msg> {
    if log == [] then [] else Msgs(log[..|log| - 1], mg) + MsgOf(log[|log| - 1], mg)
  }

  function MsgOf(e: Event, mg: Mg): seq<Msg> {
    if e.mg == mg then [Data(e.change, e.dispatch)] else []
  }

  lemma {:induction false} MsgsJoin(a: seq<Event>, b: seq<Event>, mg: Mg)
    ensures Msgs(a + b, mg) == Msgs(a, mg) + Msgs(b, mg)
    decreases |b|
  {
    if b == [] {
      assert a + b == a;
    } else {
      var last := |b| - 1;
      assert (a + b)[..|a + b| - 1] == a + b[..last] && (a + b)[|a + b| - 1] == b[last];
      MsgsJoin(a, b[..last], mg);
    }
  }

  lemma {:induction false} HistoryFolds(log: seq<Event>, mg: Mg)
    ensures Fold(map[], Msgs(log, mg)) == History(log, mg)
  {
    if log != [] {
      var last := |log| - 1;
      HistoryFolds(log[..last], mg);
      FoldJoin(map[], Msgs(log[..last], mg), MsgOf(log[last], mg));
      if log[last].mg == mg { FoldOne(History(log[..last], mg), Data(log[last].change, log[last].dispatch)); }
    }
  }

  lemma HistoryGoesOn(a: seq<Event>, b: seq<Event>, mg: Mg)
    ensures History(a + b, mg) == Fold(History(a, mg), Msgs(b, mg))
  {
    HistoryFolds(a, mg);
    HistoryFolds(a + b, mg);
    MsgsJoin(a, b, mg);
    FoldJoin(map[], Msgs(a, mg), Msgs(b, mg));
  }

  // ------------------------------------------------------------- said twice

  ghost predicate Alike(m: Kept, n: Kept, id: Id) {
    && (id in m <==> id in n)
    && (id in m ==> m[id] == n[id])
  }

  ghost predicate Touches(msgs: seq<Msg>, id: Id) {
    exists k :: 0 <= k < |msgs| && msgs[k].Data? && msgs[k].dispatch.id == id
  }

  // What is folded last on an id decides it, whatever was there.
  lemma {:induction false} FoldDecides(m: Kept, n: Kept, msgs: seq<Msg>, id: Id)
    requires Touches(msgs, id) || Alike(m, n, id)
    ensures Alike(Fold(m, msgs), Fold(n, msgs), id)
    decreases |msgs|
  {
    if msgs != [] {
      var first := msgs[0];
      if first.Data? && first.dispatch.id == id {
      } else if Touches(msgs, id) {
        var k :| 0 <= k < |msgs| && msgs[k].Data? && msgs[k].dispatch.id == id;
        assert msgs[1..][k - 1] == msgs[k];
      }
      FoldDecides(ApplyMsg(m, first), ApplyMsg(n, first), msgs[1..], id);
    }
  }

  lemma {:induction false} FoldLeaves(m: Kept, msgs: seq<Msg>, id: Id)
    requires !Touches(msgs, id)
    ensures Alike(Fold(m, msgs), m, id)
    decreases |msgs|
  {
    if msgs != [] {
      assert !(msgs[0].Data? && msgs[0].dispatch.id == id);
      assert !Touches(msgs[1..], id) by {
        assert forall k | 0 <= k < |msgs| - 1 :: msgs[1..][k] == msgs[k + 1];
      }
      FoldLeaves(ApplyMsg(m, msgs[0]), msgs[1..], id);
    }
  }

  // Changes folded again after themselves change nothing.
  lemma SaidTwice(m: Kept, msgs: seq<Msg>)
    ensures Fold(Fold(m, msgs), msgs) == Fold(m, msgs)
  {
    var once := Fold(m, msgs);
    forall id ensures Alike(Fold(once, msgs), once, id) {
      if Touches(msgs, id) {
        FoldDecides(once, m, msgs, id);
      } else {
        FoldLeaves(once, msgs, id);
      }
    }
    SameEverywhere(Fold(once, msgs), once);
  }

  lemma SameEverywhere(m: Kept, n: Kept)
    requires forall id :: Alike(m, n, id)
    ensures m == n
  {
    forall id ensures id in m.Keys <==> id in n.Keys { assert Alike(m, n, id); }
    assert m.Keys == n.Keys;
    forall id | id in m ensures m[id] == n[id] { assert Alike(m, n, id); }
  }

  // ---------------------------------------------------------------- snapshot

  function Replays(listed: seq<Dispatch>): seq<Msg> {
    seq(|listed|, i requires 0 <= i < |listed| => Data(Created, listed[i]))
  }

  lemma {:induction false} ReplayFolds(listed: seq<Dispatch>)
    requires Ascending(listed)
    ensures Lists(listed, Fold(map[], Replays(listed)))
  {
    if listed != [] {
      var last := |listed| - 1;
      var m := Fold(map[], Replays(listed[..last]));
      ReplayFolds(listed[..last]);
      assert Replays(listed) == Replays(listed[..last]) + [Data(Created, listed[last])];
      FoldJoin(map[], Replays(listed[..last]), [Data(Created, listed[last])]);
      FoldOne(m, Data(Created, listed[last]));
      ListsOneMore(listed[..last], m, listed[last], listed);
    }
  }

  lemma ListsOneMore(listed: seq<Dispatch>, m: Kept, d: Dispatch, more: seq<Dispatch>)
    requires Lists(listed, m) && more == listed + [d] && Ascending(more)
    ensures Lists(more, m[d.id := d])
  {
    forall x ensures x in more <==> x.id in m[d.id := d] && m[d.id := d][x.id] == x {
      assert x in more <==> x in listed || x == d;
      if x in listed {
        var i :| 0 <= i < |listed| && listed[i] == x;
        assert more[i] == x && more[|listed|] == d;
      }
    }
  }

  lemma ReplayIs(listed: seq<Dispatch>, m: Kept)
    requires Lists(listed, m) && WellKeyed(m)
    ensures Fold(map[], Replays(listed)) == m
  {
    ReplayFolds(listed);
    var f := Fold(map[], Replays(listed));
    ReplayKeyed(listed);
    forall id ensures Alike(f, m, id) {
      if id in m { assert m[id] in listed; }
      if id in f { assert f[id] in listed; }
    }
    SameEverywhere(f, m);
  }

  lemma {:induction false} ReplayKeyed(listed: seq<Dispatch>)
    ensures WellKeyed(Fold(map[], Replays(listed)))
  {
    if listed != [] {
      var last := |listed| - 1;
      ReplayKeyed(listed[..last]);
      assert Replays(listed) == Replays(listed[..last]) + [Data(Created, listed[last])];
      FoldJoin(map[], Replays(listed[..last]), [Data(Created, listed[last])]);
      FoldOne(Fold(map[], Replays(listed[..last])), Data(Created, listed[last]));
    }
  }

  // -------------------------------------------------------------------- steps

  // Where the sender is: the rest of the snapshot still to send; following, with a
  // message in hand or none; about to send DATA_LOSS; done.
  datatype Phase = New | Subscribed | Replay(rest: seq<Dispatch>) | Follow(hand: seq<Msg>) | Losing | Ended

  // `log` is every change ever broadcast. The receiver stood at `from` when it
  // subscribed, the log at `at` when the snapshot was taken, and the receiver is
  // at `pos` now. Of what was `sent` the client has folded the first `got`.
  datatype State = State(
    mg: Mg, inner: map<Mg, Kept>, log: seq<Event>,
    phase: Phase, from: nat, at: nat, pos: nat, snapshot: seq<Dispatch>,
    sent: seq<Msg>, got: nat, client: Kept)

  datatype Move =
    | Change(event: Event)         // a change of the store, broadcast at once
    | Subscribe
    | TakeSnapshot
    | SendReplay
    | ReplayDone
    | Receive
    | SendHand
    | Lag
    | SendLoss
    | HangUp                       // the client is gone
    | Read                         // the client folds the next message

  predicate Lagged(s: State) { |s.log| > s.pos + BUS }

  predicate HasRoom(s: State) { |s.sent| < s.got + CHANNEL }

  ghost predicate Can(s: State, m: Move) {
    match m
    case Change(_) => true
    case Subscribe => s.phase.New?
    case TakeSnapshot => s.phase.Subscribed?
    case SendReplay => s.phase.Replay? && s.phase.rest != [] && HasRoom(s)
    case ReplayDone => s.phase == Replay([])
    case Receive => s.phase == Follow([]) && s.pos < |s.log| && !Lagged(s)
    case SendHand => s.phase.Follow? && s.phase.hand != [] && HasRoom(s)
    case Lag => s.phase == Follow([]) && Lagged(s)
    case SendLoss => s.phase.Losing? && HasRoom(s)
    case HangUp => true
    case Read => s.got < |s.sent|
  }

  ghost predicate Step(s: State, m: Move, t: State) {
    && Can(s, m)
    && match m
       case Change(e) => Committed(s.inner, e, t.inner) && t == s.(inner := t.inner, log := s.log + [e])
       case Subscribe => t == s.(phase := Subscribed, from := |s.log|, pos := |s.log|)
       case TakeSnapshot =>
         Lists(t.snapshot, Of(s.inner, s.mg))
         && t == s.(phase := Replay(t.snapshot), at := |s.log|, snapshot := t.snapshot)
       case SendReplay =>
         t == s.(phase := Replay(s.phase.rest[1..]), sent := s.sent + [Data(Created, s.phase.rest[0])])
       case ReplayDone => t == s.(phase := Follow([]))
       case Receive => t == s.(phase := Follow(MsgOf(s.log[s.pos], s.mg)), pos := s.pos + 1)
       case SendHand => t == s.(phase := Follow([]), sent := s.sent + s.phase.hand)
       case Lag => t == s.(phase := Losing)
       case SendLoss => t == s.(phase := Ended, sent := s.sent + [DataLoss])
       case HangUp => t == s.(phase := Ended)
       case Read => t == s.(got := s.got + 1, client := ApplyMsg(s.client, s.sent[s.got]))
  }

  // With nothing in hand, a receiver at most 256 changes behind reads on; one
  // further behind is told so instead. The channel to the client takes 64.
  lemma ReadsWhatIsKept(s: State)
    requires s.phase == Follow([]) && s.pos <= |s.log|
    ensures Can(s, Receive) <==> 0 < |s.log| - s.pos <= 256
    ensures Can(s, Lag) <==> |s.log| - s.pos > 256
    ensures HasRoom(s) <==> |s.sent| - s.got < 64
  {
  }

  ghost predicate Start(s: State) {
    Agrees(s.inner, s.log) && s.phase.New? && s.sent == [] && s.got == 0 && s.client == map[]
    && s.from <= s.pos <= |s.log|
  }

  // ---------------------------------------------------------------- invariants

  // Everything the stream was to say up to where the receiver is.
  function Said(s: State): seq<Msg>
    requires s.from <= s.pos <= |s.log|
  {
    SaidUpTo(s.snapshot, s.log, s.from, s.pos, s.mg)
  }

  function SaidUpTo(snapshot: seq<Dispatch>, log: seq<Event>, from: nat, pos: nat, mg: Mg): seq<Msg>
    requires from <= pos <= |log|
  {
    Replays(snapshot) + Msgs(log[from..pos], mg)
  }

  lemma SaidNext(snapshot: seq<Dispatch>, log: seq<Event>, from: nat, pos: nat, mg: Mg)
    requires from <= pos < |log|
    ensures SaidUpTo(snapshot, log, from, pos + 1, mg) == SaidUpTo(snapshot, log, from, pos, mg) + MsgOf(log[pos], mg)
  {
    MsgsLast(log, from, pos + 1, mg);
    Append(Replays(snapshot), Msgs(log[from..pos], mg), MsgOf(log[pos], mg));
  }

  // What was sent is what was to be said, less what is still in hand; DATA_LOSS
  // comes last if at all.
  ghost predicate SentSoFar(s: State)
    requires s.from <= s.pos <= |s.log|
  {
    match s.phase
    case New => s.sent == []
    case Subscribed => s.sent == [] && s.pos == s.from
    case Replay(rest) => s.pos == s.from && s.sent + Replays(rest) == Replays(s.snapshot)
    case Follow(hand) => s.sent + hand == Said(s) && DataLoss !in hand
    case Losing => s.sent == Said(s)
    case Ended => true
  }

  ghost predicate LossIsLast(s: State) {
    forall k | 0 <= k < |s.sent| && s.sent[k] == DataLoss :: k == |s.sent| - 1 && s.phase.Ended?
  }

  ghost predicate SnapshotTaken(s: State) {
    s.phase.Replay? || s.phase.Follow? || s.phase.Losing?
  }

  ghost predicate Inv(s: State) {
    && Agrees(s.inner, s.log)
    && s.from <= s.pos <= |s.log| && SentSoFar(s)
    && LossIsLast(s)
    && s.got <= |s.sent| && s.client == Fold(map[], s.sent[..s.got])
    && (SnapshotTaken(s) ==>
          && s.from <= s.at <= |s.log|
          && Fold(map[], Replays(s.snapshot)) == History(s.log[..s.at], s.mg))
  }

  lemma {:induction false} InvKept(s: State, m: Move, t: State)
    requires Inv(s) && Step(s, m, t)
    ensures Inv(t)
  {
    match m
    case Change(e) => ChangeKeeps(s, e, t);
    case Subscribe => assert t.sent[..t.got] == s.sent[..s.got];
    case TakeSnapshot => SnapshotKeeps(s, t);
    case SendReplay => ReplayKeeps(s, t);
    case ReplayDone => DoneKeeps(s, t);
    case Receive => ReceiveKeeps(s, t);
    case SendHand => HandKeeps(s, t);
    case Lag => assert s.sent + [] == s.sent;
    case SendLoss => assert t.sent[..t.got] == s.sent[..s.got];
    case HangUp =>
    case Read => ReadKeeps(s, t);
  }

  lemma ChangeKeeps(s: State, e: Event, t: State)
    requires Inv(s) && Step(s, Change(e), t)
    ensures Inv(t)
  {
    CommitAgrees(s.inner, s.log, e, t.inner);
    assert t.log[s.from..s.pos] == s.log[s.from..s.pos];
    if SnapshotTaken(s) { assert t.log[..s.at] == s.log[..s.at]; }
  }

  lemma SnapshotKeeps(s: State, t: State)
    requires Inv(s) && Step(s, TakeSnapshot, t)
    ensures Inv(t)
  {
    ReplayIs(t.snapshot, Of(s.inner, s.mg));
    assert t.log[..t.at] == s.log;
    assert [] + Replays(t.snapshot) == Replays(t.snapshot);
  }

  lemma ReplayKeeps(s: State, t: State)
    requires Inv(s) && Step(s, SendReplay, t)
    ensures Inv(t)
  {
    var rest := s.phase.rest;
    assert Replays(rest) == [Data(Created, rest[0])] + Replays(rest[1..]);
    assert s.sent + ([Data(Created, rest[0])] + Replays(rest[1..])) == t.sent + Replays(rest[1..]);
    assert t.sent[..t.got] == s.sent[..s.got];
  }

  lemma DoneKeeps(s: State, t: State)
    requires Inv(s) && Step(s, ReplayDone, t)
    ensures Inv(t)
  {
    assert s.sent + Replays([]) == s.sent && s.sent + [] == s.sent;
    assert s.log[s.from..s.pos] == [] && Replays(s.snapshot) + [] == Replays(s.snapshot);
  }

  lemma ReceiveKeeps(s: State, t: State)
    requires Inv(s) && Step(s, Receive, t)
    ensures Inv(t)
  {
    assert s.sent + [] == s.sent;
    SaidNext(s.snapshot, s.log, s.from, s.pos, s.mg);
  }

  lemma Append(a: seq<Msg>, b: seq<Msg>, c: seq<Msg>)
    ensures a + (b + c) == a + b + c
  {
  }

  lemma HandKeeps(s: State, t: State)
    requires Inv(s) && Step(s, SendHand, t)
    ensures Inv(t)
  {
    assert t.sent + [] == t.sent;
    assert t.sent[..t.got] == s.sent[..s.got];
    forall k | 0 <= k < |t.sent| ensures t.sent[k] != DataLoss {
      if k < |s.sent| {
        assert t.sent[k] == s.sent[k];
      } else {
        assert t.sent[k] == s.phase.hand[k - |s.sent|];
      }
    }
  }

  lemma ReadKeeps(s: State, t: State)
    requires Inv(s) && Step(s, Read, t)
    ensures Inv(t)
  {
    assert s.sent[..t.got] == s.sent[..s.got] + [s.sent[s.got]];
    FoldJoin(map[], s.sent[..s.got], [s.sent[s.got]]);
    FoldOne(s.client, s.sent[s.got]);
  }

  ghost predicate Run(states: seq<State>, moves: seq<Move>) {
    && |states| == |moves| + 1 && Start(states[0])
    && forall i | 0 <= i < |moves| :: Step(states[i], moves[i], states[i + 1])
  }

  lemma {:induction false} InvAlong(states: seq<State>, moves: seq<Move>, i: nat)
    requires Run(states, moves) && i < |states|
    ensures Inv(states[i])
  {
    if i > 0 {
      InvAlong(states, moves, i - 1);
      assert states[i - 1 + 1] == states[i];
      InvKept(states[i - 1], moves[i - 1], states[i]);
    }
  }

  // ------------------------------------------------------------------- results

  // What the client is owed: what is in the channel, in hand or still to be
  // replayed, and every change past the receiver.
  function Owed(s: State): seq<Msg>
    requires s.got <= |s.sent| && s.pos <= |s.log|
  {
    WithChanges(s, s.log[s.pos..])
  }

  function WithChanges(s: State, changes: seq<Event>): seq<Msg>
    requires s.got <= |s.sent|
  {
    s.sent[s.got..]
    + (if s.phase.Replay? then Replays(s.phase.rest) else if s.phase.Follow? then s.phase.hand else [])
    + Msgs(changes, s.mg)
  }

  // The changes past the receiver that the broadcast ring still holds: the newest
  // ones, as many as it has room for.
  function Held(s: State): seq<Event>
    requires s.pos <= |s.log|
  {
    if Lagged(s) then s.log[|s.log| - BUS..] else s.log[s.pos..]
  }

  // What is on its way to the client: what it is owed and can still be read.
  function OnTheWay(s: State): seq<Msg>
    requires s.got <= |s.sent| && s.pos <= |s.log|
  {
    WithChanges(s, Held(s))
  }

  // The window of changes between subscribing and the snapshot is in the snapshot
  // already; read again from the log it makes no difference in the end.
  lemma WindowIsHarmless(s: State, n: nat)
    requires Inv(s) && SnapshotTaken(s) && s.at <= n <= |s.log|
    ensures Fold(map[], Replays(s.snapshot) + Msgs(s.log[s.from..n], s.mg)) == History(s.log[..n], s.mg)
  {
    var before, window, after := s.log[..s.from], s.log[s.from..s.at], s.log[s.at..n];
    var h := History(before, s.mg);
    assert before + window == s.log[..s.at] && window + after == s.log[s.from..n] && s.log[..s.at] + after == s.log[..n];
    HistoryGoesOn(before, window, s.mg);
    HistoryGoesOn(s.log[..s.at], after, s.mg);
    SaidTwice(h, Msgs(window, s.mg));
    MsgsJoin(window, after, s.mg);
    FoldJoin(map[], Replays(s.snapshot), Msgs(s.log[s.from..n], s.mg));
    FoldJoin(Fold(h, Msgs(window, s.mg)), Msgs(window, s.mg), Msgs(after, s.mg));
  }

  // In every reachable state of a stream that has taken its snapshot and not
  // ended: the client's map, with what it is owed folded in, is the store's. While
  // the receiver has not fallen behind, all of that is on its way.
  lemma Converges(states: seq<State>, moves: seq<Move>, i: nat)
    requires Run(states, moves) && i < |states|
    requires states[i].phase.Replay? || states[i].phase.Follow?
    ensures var s := states[i];
            && s.got <= |s.sent| && s.pos <= |s.log|
            && Fold(s.client, Owed(s)) == Of(s.inner, s.mg)
            && (!Lagged(s) ==> OnTheWay(s) == Owed(s) && Fold(s.client, OnTheWay(s)) == Of(s.inner, s.mg))
  {
    InvAlong(states, moves, i);
    var s := states[i];
    WindowIsHarmless(s, |s.log|);
    assert s.log[..|s.log|] == s.log && s.log[s.from..|s.log|] == s.log[s.from..s.pos] + s.log[s.pos..];
    MsgsJoin(s.log[s.from..s.pos], s.log[s.pos..], s.mg);
    FoldJoin(map[], s.sent[..s.got], Owed(s));
    AllSaid(s);
  }

  lemma AllSaid(s: State)
    requires Inv(s) && (s.phase.Replay? || s.phase.Follow?)
    ensures s.sent[..s.got] + Owed(s)
         == Replays(s.snapshot) + (Msgs(s.log[s.from..s.pos], s.mg) + Msgs(s.log[s.pos..], s.mg))
  {
    var rest := Msgs(s.log[s.pos..], s.mg);
    var said := Msgs(s.log[s.from..s.pos], s.mg);
    assert s.sent[..s.got] + s.sent[s.got..] == s.sent;
    if s.phase.Replay? {
      assert s.log[s.from..s.pos] == [];
      Regroup(s.sent[..s.got], s.sent[s.got..], Replays(s.phase.rest), rest);
      assert said + rest == rest;
    } else {
      Regroup(s.sent[..s.got], s.sent[s.got..], s.phase.hand, rest);
      Regroup([], Replays(s.snapshot), said, rest);
      assert [] + (Replays(s.snapshot) + said + rest) == Replays(s.snapshot) + (said + rest);
    }
  }

  lemma Regroup(a: seq<Msg>, b: seq<Msg>, c: seq<Msg>, d: seq<Msg>)
    ensures a + (b + c + d) == a + b + c + d
  {
  }

  // With nothing on its way the client has exactly what the store has.
  lemma CaughtUp(states: seq<State>, moves: seq<Move>, i: nat)
    requires Run(states, moves) && i < |states|
    requires states[i].phase == Follow([]) && states[i].got == |states[i].sent| && states[i].pos == |states[i].log|
    ensures states[i].client == Of(states[i].inner, states[i].mg)
  {
    Converges(states, moves, i);
    var s := states[i];
    assert s.log[s.pos..] == [];
    assert Owed(s) == [];
  }

  // Once the client has read the window a second time it sees the store's past and
  // nothing else: its map is what the store held after some change at or past the
  // snapshot.
  lemma ClientSeesHistory(states: seq<State>, moves: seq<Move>, i: nat) returns (n: nat)
    requires Run(states, moves) && i < |states| && states[i].phase.Follow?
    requires var s := states[i];
             && s.from <= s.at <= |s.log|
             && s.got >= |Replays(s.snapshot)| + |Msgs(s.log[s.from..s.at], s.mg)|
    ensures states[i].at <= n <= |states[i].log| && states[i].client == History(states[i].log[..n], states[i].mg)
  {
    InvAlong(states, moves, i);
    var s := states[i];
    var k := s.got - |Replays(s.snapshot)|;
    assert s.sent[..s.got] == Said(s)[..s.got] by { assert s.sent + s.phase.hand == Said(s); }
    assert Said(s)[..s.got] == Replays(s.snapshot) + Msgs(s.log[s.from..s.pos], s.mg)[..k];
    n := Cut(s.log, s.from, s.at, s.pos, s.mg, k);
    WindowIsHarmless(s, n);
  }

  lemma MsgsLast(log: seq<Event>, from: nat, pos: nat, mg: Mg)
    requires from < pos <= |log|
    ensures Msgs(log[from..pos], mg) == Msgs(log[from..pos - 1], mg) + MsgOf(log[pos - 1], mg)
  {
    var part := log[from..pos];
    assert part[..|part| - 1] == log[from..pos - 1];
  }

  // Where in the log the first `k` messages end, no earlier than `at`.
  lemma {:induction false} Cut(log: seq<Event>, from: nat, at: nat, pos: nat, mg: Mg, k: nat) returns (n: nat)
    requires from <= at <= |log| && from <= pos <= |log|
    requires |Msgs(log[from..at], mg)| <= k <= |Msgs(log[from..pos], mg)|
    ensures at <= n <= |log| && Msgs(log[from..pos], mg)[..k] == Msgs(log[from..n], mg)
    decreases pos
  {
    if pos <= at {
      CutAll(log, from, at, pos, mg);
      PrefixIs(Msgs(log[from..pos], mg), Msgs(log[from..at], mg), k);
      n := at;
    } else if k == |Msgs(log[from..pos], mg)| {
      n := pos;
    } else {
      CutBack(log, from, pos, mg, k);
      n := Cut(log, from, at, pos - 1, mg, k);
    }
  }

  lemma PrefixIs(a: seq<Msg>, b: seq<Msg>, k: nat)
    requires a <= b && |b| <= k <= |a|
    ensures a[..k] == b
  {
  }

  lemma CutBack(log: seq<Event>, from: nat, pos: nat, mg: Mg, k: nat)
    requires from < pos <= |log| && k < |Msgs(log[from..pos], mg)|
    ensures k <= |Msgs(log[from..pos - 1], mg)|
    ensures Msgs(log[from..pos], mg)[..k] == Msgs(log[from..pos - 1], mg)[..k]
  {
    MsgsLast(log, from, pos, mg);
  }

  lemma CutAll(log: seq<Event>, from: nat, at: nat, pos: nat, mg: Mg)
    requires from <= pos <= at <= |log|
    ensures Msgs(log[from..pos], mg) <= Msgs(log[from..at], mg)
  {
    assert log[from..at] == log[from..pos] + log[pos..at];
    MsgsJoin(log[from..pos], log[pos..at], mg);
  }

  // A stream that fell behind says nothing after DATA_LOSS, and it cannot read on
  // without saying it: from a lagged receiver only the loss follows.
  lemma LossEndsIt(states: seq<State>, moves: seq<Move>, i: nat, k: nat)
    requires Run(states, moves) && i < |states| && k < |states[i].sent| && states[i].sent[k] == DataLoss
    ensures k == |states[i].sent| - 1 && states[i].phase.Ended?
    ensures forall m, t | Step(states[i], m, t) :: t.sent == states[i].sent
  {
    InvAlong(states, moves, i);
  }

  lemma LaggedNeverReads(s: State, m: Move, t: State)
    requires Step(s, m, t) && s.phase == Follow([]) && Lagged(s)
    ensures t.pos == s.pos && t.sent == s.sent && (t.phase == s.phase || t.phase.Losing? || t.phase.Ended?)
    ensures t.phase == s.phase ==> Lagged(t)
  {
  }

  // So once it has fallen behind it stays where it is, to the end of the run.
  lemma {:induction false} LaggedStays(states: seq<State>, moves: seq<Move>, i: nat, j: nat)
    requires Run(states, moves) && i <= j < |states| && Lagged(states[i]) && !states[i].phase.New?
    ensures states[j].pos == states[i].pos && Lagged(states[j]) && !states[j].phase.New?
    decreases j
  {
    if i < j {
      LaggedStays(states, moves, i, j - 1);
      assert Step(states[j - 1], moves[j - 1], states[j - 1 + 1]);
    }
  }

  lemma Extend(states: seq<State>, moves: seq<Move>, m: Move, t: State)
    requires Run(states, moves) && Step(states[|moves|], m, t)
    ensures Run(states + [t], moves + [m])
  {
    var ss, ms := states + [t], moves + [m];
    forall i | 0 <= i < |ms| ensures Step(ss[i], ms[i], ss[i + 1]) {
      if i < |moves| { assert ss[i] == states[i] && ss[i + 1] == states[i + 1] && ms[i] == moves[i]; }
    }
  }

  lemma PutCommits(before: map<Mg, Kept>, e: Event, kept: Kept)
    requires (forall mg | mg in before :: before[mg] != map[]) && !e.change.Deleted?
    requires kept == Of(before, e.mg)[e.dispatch.id := e.dispatch]
    ensures Committed(before, e, before[e.mg := kept])
  {
    assert e.dispatch.id in kept;
  }

  // A dispatch of id 1, told apart by its text.
  function Version(text: string): Dispatch {
    Dispatch(1, DispatchData(Some(0), None, false, true, text), Stamps(0, 0, None))
  }

  // A window that holds a create and an update: the snapshot has the update, the
  // stream then says the create again, and until the update follows the client is
  // back at the older version.
  lemma WindowGoesBack() returns (states: seq<State>, moves: seq<Move>, i: nat, j: nat)
    ensures Run(states, moves) && i < j < |states|
    ensures states[i].client == Of(states[i].inner, 5) == map[1 := Version("new")]
    ensures states[j].client == map[1 := Version("old")] && Of(states[j].inner, 5) == Of(states[i].inner, 5)
  {
    var older, newer := Version("old"), Version("new");
    var made, changed := Event(5, Created, older), Event(5, Updated, newer);
    var s0 := State(5, map[], [], New, 0, 0, 0, [], [], 0, map[]);
    states, moves := [s0], [];
    var s1 := s0.(phase := Subscribed);
    Extend(states, moves, Subscribe, s1);
    states, moves := states + [s1], moves + [Subscribe];
    var s2 := s1.(inner := s1.inner[5 := map[1 := older]], log := [] + [made]);
    PutCommits(s1.inner, made, map[1 := older]);
    Extend(states, moves, Change(made), s2);
    states, moves := states + [s2], moves + [Change(made)];
    var s3 := s2.(inner := s2.inner[5 := map[1 := newer]], log := s2.log + [changed]);
    assert map[1 := older][1 := newer] == map[1 := newer];
    PutCommits(s2.inner, changed, map[1 := newer]);
    Extend(states, moves, Change(changed), s3);
    states, moves := states + [s3], moves + [Change(changed)];
    var s4 := s3.(phase := Replay([newer]), at := 2, snapshot := [newer]);
    assert s3.log == [made, changed] && s3.inner == map[5 := map[1 := newer]];
    assert Of(s3.inner, 5) == map[1 := newer] && Lists([newer], map[1 := newer]);
    Extend(states, moves, TakeSnapshot, s4);
    states, moves := states + [s4], moves + [TakeSnapshot];
    i, states, moves := GoOn(states, moves, older, newer);
    j := |moves|;
  }

  lemma GoOn(states: seq<State>, moves: seq<Move>, older: Dispatch, newer: Dispatch)
    returns (i: nat, states': seq<State>, moves': seq<Move>)
    requires older.id == newer.id == 1
    requires Run(states, moves)
    requires states[|moves|] == State(5, map[5 := map[1 := newer]], [Event(5, Created, older), Event(5, Updated, newer)],
                                      Replay([newer]), 0, 2, 0, [newer], [], 0, map[])
    ensures Run(states', moves') && i < |moves'|
    ensures states'[i].client == map[1 := newer] && states'[|moves'|].client == map[1 := older]
    ensures states'[i].inner == states'[|moves'|].inner == map[5 := map[1 := newer]]
  {
    var s4 := states[|moves|];
    var first, again := Data(Created, newer), Data(Created, older);
    states', moves' := states, moves;
    var s5 := s4.(phase := Replay([newer][1..]), sent := [] + [first]);
    Extend(states', moves', SendReplay, s5);
    states', moves' := states' + [s5], moves' + [SendReplay];
    var s6 := s5.(got := 1, client := map[1 := newer]);
    Extend(states', moves', Read, s6);
    states', moves' := states' + [s6], moves' + [Read];
    i := |moves'|;
    var s7 := s6.(phase := Follow([]));
    Extend(states', moves', ReplayDone, s7);
    states', moves' := states' + [s7], moves' + [ReplayDone];
    var s8 := s7.(phase := Follow([again]), pos := 1);
    Extend(states', moves', Receive, s8);
    states', moves' := states' + [s8], moves' + [Receive];
    var s9 := s8.(phase := Follow([]), sent := s8.sent + [again]);
    Extend(states', moves', SendHand, s9);
    states', moves' := states' + [s9], moves' + [SendHand];
    var s10 := s9.(got := 2, client := map[1 := older]);
    Extend(states', moves', Read, s10);
    states', moves' := states' + [s10], moves' + [Read];
  }
}
