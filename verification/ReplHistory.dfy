// The REPL's command history (ui-assets/repl-keys.js, ReplHistory): a walk through
// the commands run so far that keeps whatever was typed into each on the way.
module ReplHistory {
  import opened Wrappers

  // A walk: the commands, where it is (the draft comes after the last), and what
  // was left in the places it has been to.
  datatype Walk = Walk(entries: seq<string>, index: nat, edits: map<nat, string>)

  datatype Move = Move(dir: int, current: string)

  predicate Sound(w: Walk) {
    && w.index <= |w.entries|
    && (w.index < |w.entries| ==> |w.entries| in w.edits)
  }

  function Fresh(entries: seq<string>): Walk { Walk(entries, |entries|, map[]) }

  predicate InReach(w: Walk, dir: int) { 0 <= w.index + dir <= |w.entries| }

  function Stepped(w: Walk, m: Move): Walk {
    if InReach(w, m.dir) then w.(edits := w.edits[w.index := m.current], index := w.index + m.dir) else w
  }

  // What step answers.
  function Shown(w: Walk, m: Move): Option<string>
    requires Sound(w) && m.dir != 0
  {
    if !InReach(w, m.dir) then None
    else
      var next := w.index + m.dir;
      if next in w.edits then Some(w.edits[next]) else Some(w.entries[next])
  }

  // ------------------------------------------------------- as an array of lines

  // The editable line at `k`: what was left there, or the command itself; the
  // draft is blank until something is left in it.
  function Line(w: Walk, k: nat): string
    requires k <= |w.entries|
  {
    if k in w.edits then w.edits[k] else if k < |w.entries| then w.entries[k] else ""
  }

  function Lines(w: Walk): seq<string> {
    seq(|w.entries| + 1, k requires 0 <= k <= |w.entries| => Line(w, k))
  }

  // A step leaves the current text at its line and shows the line it goes to;
  // at either end it does nothing.
  lemma StepRefines(w: Walk, m: Move)
    requires Sound(w) && m.dir != 0
    ensures var t := Stepped(w, m);
            && Sound(t) && t.entries == w.entries
            && (0 <= w.index + m.dir <= |w.entries| ==>
                  && Lines(t) == Lines(w)[w.index := m.current]
                  && t.index == w.index + m.dir
                  && Shown(w, m) == Some(Lines(w)[t.index]) == Some(Lines(t)[t.index]))
            && (w.index + m.dir < 0 || w.index + m.dir > |w.entries| ==> t == w && Shown(w, m) == None)
  {
    if InReach(w, m.dir) {
      var t := Stepped(w, m);
      assert Lines(t) == Lines(w)[w.index := m.current];
    }
  }

  // ------------------------------------------------------------------ whole walks

  predicate Dirs(moves: seq<Move>) { forall i | 0 <= i < |moves| :: moves[i].dir == -1 || moves[i].dir == 1 }

  function After(w: Walk, moves: seq<Move>): Walk {
    if moves == [] then w else Stepped(After(w, moves[..|moves| - 1]), moves[|moves| - 1])
  }

  lemma {:induction false} AfterSound(w: Walk, moves: seq<Move>)
    requires Sound(w) && Dirs(moves)
    ensures Sound(After(w, moves)) && After(w, moves).entries == w.entries
  {
    if moves != [] {
      AfterSound(w, moves[..|moves| - 1]);
      StepRefines(After(w, moves[..|moves| - 1]), moves[|moves| - 1]);
    }
  }

  // The text last left at `k` on the way, if the walk has left there.
  function LastLeft(w: Walk, moves: seq<Move>, k: nat): Option<string> {
    if moves == [] then None
    else
      var before, m := After(w, moves[..|moves| - 1]), moves[|moves| - 1];
      if before.index == k && InReach(before, m.dir) then Some(m.current) else LastLeft(w, moves[..|moves| - 1], k)
  }

  lemma {:induction false} EditsAreLastLeft(entries: seq<string>, moves: seq<Move>, k: nat)
    requires Dirs(moves)
    ensures var w := Fresh(entries);
            if LastLeft(w, moves, k).Some? then
              k in After(w, moves).edits && After(w, moves).edits[k] == LastLeft(w, moves, k).value
            else k !in After(w, moves).edits
  {
    if moves != [] { EditsAreLastLeft(entries, moves[..|moves| - 1], k); }
  }

  // What is to be seen at `k`: the text last left there, else the command.
  function Expected(entries: seq<string>, left: Option<string>, k: nat): Option<string> {
    if left.Some? then left else if k < |entries| then Some(entries[k]) else None
  }

  // Coming back to a place always shows the text last left there, and coming to a
  // command for the first time shows the command.
  lemma ShowsLastLeft(entries: seq<string>, moves: seq<Move>, w: Walk, m: Move)
    requires Dirs(moves) && (m.dir == -1 || m.dir == 1) && w == After(Fresh(entries), moves)
    ensures Sound(w)
    ensures Shown(w, m).Some? <==> InReach(w, m.dir)
    ensures InReach(w, m.dir) ==>
      Shown(w, m) == Expected(entries, LastLeft(Fresh(entries), moves, w.index + m.dir), w.index + m.dir)
  {
    AfterSound(Fresh(entries), moves);
    if InReach(w, m.dir) { EditsAreLastLeft(entries, moves, w.index + m.dir); }
  }

  // ----------------------------------------------------------------------- push

  // slice(-cap), which keeps everything for a cap of 0.
  function Newest(entries: seq<string>, cap: nat): seq<string> {
    if cap == 0 || |entries| <= cap then entries else entries[|entries| - cap..]
  }

  predicate Records(entries: seq<string>, src: string, blank: bool, maxChars: nat) {
    !blank && |src| <= maxChars && (entries != [] ==> src != entries[|entries| - 1])
  }

  function Pushed(entries: seq<string>, src: string, blank: bool, cap: nat, maxChars: nat): seq<string> {
    if !Records(entries, src, blank, maxChars) then entries
    else if |entries| + 1 > cap then (entries + [src])[1..]
    else entries + [src]
  }

  predicate NoRepeats(entries: seq<string>) {
    forall i | 0 <= i < |entries| - 1 :: entries[i] != entries[i + 1]
  }

  // A push keeps the newest `cap` commands in order, and no command twice running;
  // it adds the command unless it is blank, too long or the newest once more.
  lemma PushKeeps(entries: seq<string>, src: string, blank: bool, cap: nat, maxChars: nat)
    requires cap > 0 && |entries| <= cap && NoRepeats(entries)
    ensures var out := Pushed(entries, src, blank, cap, maxChars);
            && |out| <= cap && NoRepeats(out)
            && (blank || |src| > maxChars || (entries != [] && src == entries[|entries| - 1]) ==> out == entries)
            && (!blank && |src| <= maxChars && (entries == [] || src != entries[|entries| - 1]) ==>
                  |out| > 0 && out[|out| - 1] == src
                  && out == if |entries| < cap then entries + [src] else entries[1..] + [src])
  {
    var out := Pushed(entries, src, blank, cap, maxChars);
    forall i | 0 <= i < |out| - 1 ensures out[i] != out[i + 1] {
      if Records(entries, src, blank, maxChars) {
        var all := entries + [src];
        var shift := |all| - |out|;
        assert out[i] == all[i + shift] && out[i + 1] == all[i + shift + 1];
        if i + shift + 1 < |entries| { assert entries[i + shift] != entries[i + shift + 1]; }
      }
    }
  }

  class History {
    const cap: nat
    const maxChars: nat
    // Whether trim leaves nothing of a text.
    const isBlank: string -> bool
    var entries: seq<string>
    var index: nat
    var edits: map<nat, string>

    constructor (entries: seq<string>, cap: nat, maxChars: nat, isBlank: string -> bool)
      ensures View() == Fresh(Newest(entries, cap))
      ensures this.cap == cap && this.maxChars == maxChars && this.isBlank == isBlank
    {
      this.cap, this.maxChars, this.isBlank := cap, maxChars, isBlank;
      this.entries := Newest(entries, cap);
      index, edits := |Newest(entries, cap)|, map[];
    }

    ghost function View(): Walk
      reads this
    {
      Walk(entries, index, edits)
    }

    method Reset()
      modifies this`index, this`edits
      ensures View() == Fresh(entries)
    {
      index := |entries|;
      edits := map[];
    }

    method Push(src: string)
      modifies this
      ensures View() == Fresh(Pushed(old(entries), src, isBlank(src), cap, maxChars))
    {
      if !isBlank(src) && |src| <= maxChars && (entries == [] || src != entries[|entries| - 1]) {
        entries := entries + [src];
        if |entries| > cap { entries := entries[1..]; }
      }
      Reset();
    }

    method Step(dir: int, current: string) returns (text: Option<string>)
      requires Sound(View()) && dir != 0
      modifies this
      ensures View() == Stepped(old(View()), Move(dir, current)) && Sound(View())
      ensures text == Shown(old(View()), Move(dir, current))
    {
      StepRefines(View(), Move(dir, current));
      var next := index + dir;
      if next < 0 || next > |entries| { return None; }
      edits := edits[index := current];
      index := next;
      text := if next in edits then Some(edits[next]) else Some(entries[next]);
    }
  }
}
