// The REPL's Emacs keys (ui-assets/repl-keys.js, EmacsKeys): word and line
// motion, and kills that join into one entry while they run back to back.
module EmacsKeys {
  import opened Wrappers

  datatype Command =
    | BeginningOfLine | EndOfLine | ForwardChar | BackwardChar | PreviousLine | NextLine
    | BeginningOfBuffer | EndOfBuffer | ForwardWord | BackwardWord | DeleteChar
    | KillWord | BackwardKillWord | KillLine | Yank

  datatype Edit = Edit(start: nat, end: nat, text: string)

  // What a command does: where the caret goes, and the edit over the old text.
  datatype Outcome = Outcome(caret: nat, replace: Option<Edit>)

  datatype Chain = Chain(caret: nat, length: nat)

  datatype Ring = Ring(killed: string, chain: Option<Chain>)

  // Which characters are letters and digits.
  type Words = char -> bool

  // ------------------------------------------------------------------- lines

  predicate NoNewline(v: string, from: nat, to: nat)
    requires to <= |v|
  {
    forall k | from <= k < to :: v[k] != '\n'
  }

  // v.indexOf("\n", i), or the end.
  function LineEnd(v: string, i: nat): (n: nat)
    requires i <= |v|
    ensures i <= n <= |v| && NoNewline(v, i, n) && (n < |v| ==> v[n] == '\n')
    decreases |v| - i
  {
    if i == |v| || v[i] == '\n' then i else LineEnd(v, i + 1)
  }

  // v.lastIndexOf("\n", i), which reads an index before the start as 0; -1 for none.
  function LastNewline(v: string, i: int): (n: int)
    requires i < |v| || v == ""
    ensures -1 <= n && (n >= 0 ==> n < |v| && v[n] == '\n')
    decreases i
  {
    if v == "" then -1
    else if i <= 0 then (if v[0] == '\n' then 0 else -1)
    else if v[i] == '\n' then i
    else LastNewline(v, i - 1)
  }

  function LineStart(v: string, i: nat): nat
    requires i <= |v|
  {
    LastNewline(v, i - 1) + 1
  }

  // Where the line that position `i` is on begins.
  ghost predicate IsLineStart(v: string, i: nat, s: nat)
    requires i <= |v|
  {
    s <= i && (s == 0 || v[s - 1] == '\n') && NoNewline(v, s, i)
  }

  lemma {:induction false} LastNewlineBefore(v: string, i: nat)
    requires i < |v|
    ensures LastNewline(v, i) <= i
    ensures NoNewline(v, LastNewline(v, i) + 1, i + 1)
  {
    if i > 0 && v[i] != '\n' { LastNewlineBefore(v, i - 1); }
  }

  // A text that begins with a newline is misread at its very start: there the
  // line is taken to begin after that newline. Everywhere else the start is right.
  lemma LineStartIsRight(v: string, i: nat)
    requires i <= |v|
    ensures IsLineStart(v, i, LineStart(v, i)) <==> !(i == 0 && v != "" && v[0] == '\n')
  {
    if i > 0 { LastNewlineBefore(v, i - 1); }
  }

  function SameColumn(v: string, caret: nat, start: nat): nat
    requires caret <= |v| && start <= |v| && start + caret >= LineStart(v, caret)
  {
    var at, end := start + caret - LineStart(v, caret), LineEnd(v, start);
    if at <= end then at else end
  }

  function PreviousLineCaret(v: string, caret: nat): (to: nat)
    requires caret <= |v|
    ensures to <= |v|
  {
    StartInText(v, caret);
    var start := LineStart(v, caret);
    if start == 0 then 0
    else
      StartInText(v, start - 1);
      PreviousInText(v, caret);
      SameColumn(v, caret, LineStart(v, start - 1))
  }

  function NextLineCaret(v: string, caret: nat): (to: nat)
    requires caret <= |v|
    ensures to <= |v|
  {
    StartInText(v, caret);
    var end := LineEnd(v, caret);
    if end == |v| then end else SameColumn(v, caret, end + 1)
  }

  lemma StartInText(v: string, i: nat)
    requires i <= |v|
    ensures LineStart(v, i) <= |v| && LineStart(v, i) <= i + 1
  {
    if i > 0 { LastNewlineBefore(v, i - 1); }
  }

  lemma PreviousInText(v: string, caret: nat)
    requires caret <= |v| && LineStart(v, caret) > 0
    ensures LineStart(v, caret) - 1 <= |v|
    ensures LineStart(v, LineStart(v, caret) - 1) + caret >= LineStart(v, caret)
  {
    StartInText(v, caret);
    if caret > 0 { LastNewlineBefore(v, caret - 1); }
  }

  function Min(a: int, b: int): int { if a <= b then a else b }

  // Up a line, in the same column or at the end of a shorter line. It fails only
  // where the line above is the text's first and empty: there the caret stays.
  lemma PreviousLineIsRight(v: string, caret: nat, s: nat, p: nat)
    requires caret <= |v| && IsLineStart(v, caret, s) && (s > 0 ==> IsLineStart(v, s - 1, p))
    ensures s == 0 ==> PreviousLineCaret(v, caret) == 0
    ensures s == 1 ==> PreviousLineCaret(v, caret) == caret
    ensures s > 1 ==> PreviousLineCaret(v, caret) == Min(p + caret - s, s - 1)
  {
    LineStartIsRight(v, caret);
    if caret == 0 && v != "" && v[0] == '\n' {
    } else {
      OneLineStart(v, caret, s, LineStart(v, caret));
      if s > 1 {
        LineStartIsRight(v, s - 1);
        OneLineStart(v, s - 1, p, LineStart(v, s - 1));
        EndOfLineAbove(v, s - 1, p);
      }
    }
  }

  lemma NoLaterStart(v: string, i: nat, s: nat, t: nat)
    requires i <= |v| && NoNewline(v, s, i) && t <= i && (t == 0 || v[t - 1] == '\n')
    ensures t <= s
  {
  }

  lemma OneLineStart(v: string, i: nat, s: nat, t: nat)
    requires i <= |v| && IsLineStart(v, i, s) && IsLineStart(v, i, t)
    ensures s == t
  {
    NoLaterStart(v, i, s, t);
    NoLaterStart(v, i, t, s);
  }

  lemma {:induction false} EndOfLineAbove(v: string, end: nat, p: nat)
    requires end < |v| && v[end] == '\n' && p <= end && NoNewline(v, p, end)
    ensures LineEnd(v, p) == end
    decreases end - p
  {
    if p < end { EndOfLineAbove(v, end, p + 1); }
  }

  // Down a line likewise. It fails only at the very start of a text that begins
  // with a newline, where the caret stays too.
  lemma NextLineIsRight(v: string, caret: nat, s: nat)
    requires caret <= |v| && IsLineStart(v, caret, s)
    ensures var end := LineEnd(v, caret);
            if end == |v| then NextLineCaret(v, caret) == end
            else if caret == 0 && v[0] == '\n' then NextLineCaret(v, caret) == caret
            else NextLineCaret(v, caret) == Min(end + 1 + caret - s, LineEnd(v, end + 1))
  {
    LineStartIsRight(v, caret);
    if !(caret == 0 && v != "" && v[0] == '\n') { OneLineStart(v, caret, s, LineStart(v, caret)); }
  }

  // ------------------------------------------------------------------- words

  // The first place from `i` on where a word is (or is not), or the end.
  function SkipTo(v: string, i: nat, word: Words, want: bool): (j: nat)
    requires i <= |v|
    ensures i <= j <= |v| && (j < |v| ==> word(v[j]) == want)
    decreases |v| - i
  {
    if i == |v| || word(v[i]) == want then i else SkipTo(v, i + 1, word, want)
  }

  // The last place up to `i` that such a character is just before, or the start.
  function SkipBack(v: string, i: nat, word: Words, want: bool): (j: nat)
    requires i <= |v|
    ensures j <= i && (j > 0 ==> word(v[j - 1]) == want)
  {
    if i == 0 || word(v[i - 1]) == want then i else SkipBack(v, i - 1, word, want)
  }

  function WordEndAt(v: string, i: nat, word: Words): (j: nat)
    requires i <= |v|
    ensures i <= j <= |v|
  {
    SkipTo(v, SkipTo(v, i, word, true), word, false)
  }

  function WordStartAt(v: string, i: nat, word: Words): (j: nat)
    requires i <= |v|
    ensures j <= i
  {
    SkipBack(v, SkipBack(v, i, word, true), word, false)
  }

  predicate AllAre(v: string, from: nat, to: nat, word: Words, want: bool)
    requires to <= |v|
  {
    forall k | from <= k < to :: word(v[k]) == want
  }

  // From `i` to `j`: no word up to `m`, then one word, whole to its end.
  ghost predicate SpansWord(v: string, i: nat, m: nat, j: nat, word: Words) {
    && i <= m <= j <= |v|
    && AllAre(v, i, m, word, false) && AllAre(v, m, j, word, true)
    && (m == j ==> j == |v|) && (j < |v| ==> !word(v[j]))
  }

  lemma {:induction false} SkipToSkips(v: string, i: nat, word: Words, want: bool)
    requires i <= |v|
    ensures AllAre(v, i, SkipTo(v, i, word, want), word, !want)
    decreases |v| - i
  {
    if i < |v| && word(v[i]) != want { SkipToSkips(v, i + 1, word, want); }
  }

  lemma {:induction false} SkipBackSkips(v: string, i: nat, word: Words, want: bool)
    requires i <= |v|
    ensures AllAre(v, SkipBack(v, i, word, want), i, word, !want)
  {
    if i > 0 && word(v[i - 1]) != want { SkipBackSkips(v, i - 1, word, want); }
  }

  lemma ForwardWordSpans(v: string, i: nat, word: Words)
    requires i <= |v|
    ensures SpansWord(v, i, SkipTo(v, i, word, true), WordEndAt(v, i, word), word)
  {
    SkipToSkips(v, i, word, true);
    SkipToSkips(v, SkipTo(v, i, word, true), word, false);
  }

  // Back from `i` to `j`: no word down to `m`, then one word, whole to its start.
  ghost predicate SpansWordBack(v: string, i: nat, m: nat, j: nat, word: Words) {
    && j <= m <= i <= |v|
    && AllAre(v, m, i, word, false) && AllAre(v, j, m, word, true)
    && (m == j ==> j == 0) && (j > 0 ==> !word(v[j - 1]))
  }

  lemma BackwardWordSpans(v: string, i: nat, word: Words)
    requires i <= |v|
    ensures SpansWordBack(v, i, SkipBack(v, i, word, true), WordStartAt(v, i, word), word)
  {
    SkipBackSkips(v, i, word, true);
    SkipBackSkips(v, SkipBack(v, i, word, true), word, false);
  }

  // Back from the end of the word just moved over is the start of that word; from
  // the start of a word, back is where the move began.
  lemma BackwardWordUndoes(v: string, i: nat, word: Words)
    requires i < |v| && word(v[i]) && (i > 0 ==> !word(v[i - 1]))
    ensures WordStartAt(v, WordEndAt(v, i, word), word) == i
  {
    ForwardWordSpans(v, i, word);
    var j := WordEndAt(v, i, word);
    assert SkipTo(v, i, word, true) == i;
    assert SkipBack(v, j, word, true) == j by { assert word(v[j - 1]); }
    SkipBackAll(v, i, j, word);
  }

  lemma {:induction false} SkipBackAll(v: string, i: nat, j: nat, word: Words)
    requires i <= j <= |v| && AllAre(v, i, j, word, true) && (i > 0 ==> !word(v[i - 1]))
    ensures SkipBack(v, j, word, false) == i
  {
    if i < j { SkipBackAll(v, i, j - 1, word); }
  }

  method WordEnd(v: string, i: nat, word: Words) returns (j: nat)
    requires i <= |v|
    ensures j == WordEndAt(v, i, word)
  {
    j := i;
    while j < |v| && !word(v[j])
      invariant i <= j <= |v| && SkipTo(v, i, word, true) == SkipTo(v, j, word, true)
    {
      j := j + 1;
    }
    ghost var m := j;
    while j < |v| && word(v[j])
      invariant m <= j <= |v| && SkipTo(v, m, word, false) == SkipTo(v, j, word, false)
    {
      j := j + 1;
    }
  }

  method WordStart(v: string, i: nat, word: Words) returns (j: nat)
    requires i <= |v|
    ensures j == WordStartAt(v, i, word)
  {
    j := i;
    while j > 0 && !word(v[j - 1])
      invariant j <= i && SkipBack(v, i, word, true) == SkipBack(v, j, word, true)
    {
      j := j - 1;
    }
    ghost var m := j;
    while j > 0 && word(v[j - 1])
      invariant j <= m && SkipBack(v, m, word, false) == SkipBack(v, j, word, false)
    {
      j := j - 1;
    }
  }

  // ------------------------------------------------------------------- kills

  predicate IsKill(cmd: Command) { cmd.KillWord? || cmd.BackwardKillWord? || cmd.KillLine? }

  predicate Blank(v: string, from: nat, to: nat)
    requires to <= |v|
  {
    forall k | from <= k < to :: v[k] == ' ' || v[k] == '\t'
  }

  function KillStart(cmd: Command, v: string, caret: nat, word: Words): (start: nat)
    requires caret <= |v|
    ensures start <= caret
  {
    if cmd.BackwardKillWord? then WordStartAt(v, caret, word) else caret
  }

  function KillEnd(cmd: Command, v: string, caret: nat, word: Words): (end: nat)
    requires caret <= |v| && IsKill(cmd)
    ensures caret <= end <= |v|
  {
    match cmd
    case KillWord => WordEndAt(v, caret, word)
    case BackwardKillWord => caret
    case _ =>
      var end := LineEnd(v, caret);
      if Blank(v, caret, end) && end < |v| then end + 1 else end
  }

  // Kill-line takes something unless the text ends at the caret: the rest of the
  // line, and its newline too if and only if that rest is spaces and tabs.
  lemma KillLineTakes(v: string, caret: nat, word: Words)
    requires caret <= |v|
    ensures var end, line := KillEnd(KillLine, v, caret, word), LineEnd(v, caret);
            && (caret < end <==> caret < |v|)
            && NoNewline(v, caret, line) && (line < |v| ==> v[line] == '\n')
            && (end == line + 1 <==> line < |v| && forall k | caret <= k < line :: v[k] == ' ' || v[k] == '\t')
            && (end == line || end == line + 1)
  {
  }

  predicate Joins(ring: Ring, v: string, caret: nat) { ring.chain == Some(Chain(caret, |v|)) }

  function KillRing(ring: Ring, v: string, caret: nat, start: nat, end: nat): Ring
    requires start <= caret <= end <= |v|
  {
    if start == end then ring.(chain := None)
    else
      var text := v[start..end];
      Ring(if !Joins(ring, v, caret) then text else if start < caret then text + ring.killed else ring.killed + text,
           Some(Chain(start, |v| - |text|)))
  }

  // The ring after any command.
  function RingAfter(ring: Ring, cmd: Command, v: string, caret: nat, word: Words): Ring
    requires caret <= |v|
  {
    if IsKill(cmd) then KillRing(ring, v, caret, KillStart(cmd, v, caret, word), KillEnd(cmd, v, caret, word))
    else ring.(chain := None)
  }

  function KillOutcome(caret: nat, start: nat, end: nat): Outcome {
    if start == end then Outcome(caret, None) else Outcome(start, Some(Edit(start, end, "")))
  }

  function OutcomeOf(ring: Ring, cmd: Command, v: string, caret: nat, word: Words): Outcome
    requires caret <= |v|
  {
    match cmd
    case BeginningOfLine => Outcome(LineStart(v, caret), None)
    case EndOfLine => Outcome(LineEnd(v, caret), None)
    case ForwardChar => Outcome(Min(caret + 1, |v|), None)
    case BackwardChar => Outcome(if caret == 0 then 0 else caret - 1, None)
    case PreviousLine => Outcome(PreviousLineCaret(v, caret), None)
    case NextLine => Outcome(NextLineCaret(v, caret), None)
    case BeginningOfBuffer => Outcome(0, None)
    case EndOfBuffer => Outcome(|v|, None)
    case ForwardWord => Outcome(WordEndAt(v, caret, word), None)
    case BackwardWord => Outcome(WordStartAt(v, caret, word), None)
    case DeleteChar => if caret < |v| then Outcome(caret, Some(Edit(caret, caret + 1, ""))) else Outcome(caret, None)
    case Yank => Outcome(caret + |ring.killed|, Some(Edit(caret, caret, ring.killed)))
    case _ => KillOutcome(caret, KillStart(cmd, v, caret, word), KillEnd(cmd, v, caret, word))
  }

  // The text once an outcome's edit is applied.
  function Applied(v: string, o: Outcome): string {
    if o.replace.None? then v
    else
      var e := o.replace.value;
      if e.start <= e.end <= |v| then v[..e.start] + e.text + v[e.end..] else v
  }

  // Every edit is inside the text and leaves the caret inside the new one.
  lemma StaysInText(ring: Ring, cmd: Command, v: string, caret: nat, word: Words)
    requires caret <= |v|
    ensures var o := OutcomeOf(ring, cmd, v, caret, word);
            && (o.replace.Some? ==> o.replace.value.start <= o.replace.value.end <= |v|)
            && o.caret <= |Applied(v, o)|
  {
    StartInText(v, caret);
    if caret == 0 && v == "" { assert LineStart(v, caret) == 0; }
  }

  // ------------------------------------------------------------- a run of kills

  datatype Editor = Editor(ring: Ring, text: string, caret: nat)

  predicate InText(e: Editor) { e.caret <= |e.text| }

  function Do(e: Editor, cmd: Command, word: Words): (f: Editor)
    requires InText(e)
    ensures InText(f)
  {
    var o := OutcomeOf(e.ring, cmd, e.text, e.caret, word);
    StaysInText(e.ring, cmd, e.text, e.caret, word);
    Editor(RingAfter(e.ring, cmd, e.text, e.caret, word), Applied(e.text, o), o.caret)
  }

  predicate Takes(e: Editor, cmd: Command, word: Words)
    requires InText(e)
  {
    IsKill(cmd) && KillStart(cmd, e.text, e.caret, word) < KillEnd(cmd, e.text, e.caret, word)
  }

  // The kill ring put in at the caret gives `original`.
  predicate Rebuilds(e: Editor, original: string)
    requires InText(e)
  {
    e.text[..e.caret] + e.ring.killed + e.text[e.caret..] == original
  }

  // ---------------------------------------------------- what each command does

  // Nothing but the caret changes, and the next kill starts afresh.
  predicate OnlyMoves(e: Editor, f: Editor) { f.text == e.text && f.ring == Ring(e.ring.killed, None) }

  lemma CharMotions(e: Editor, word: Words)
    requires InText(e)
    ensures forall cmd | cmd in {ForwardChar, BackwardChar, BeginningOfBuffer, EndOfBuffer} :: OnlyMoves(e, Do(e, cmd, word))
    ensures Do(e, ForwardChar, word).caret == if e.caret < |e.text| then e.caret + 1 else e.caret
    ensures Do(e, BackwardChar, word).caret == if e.caret > 0 then e.caret - 1 else e.caret
    ensures Do(e, BeginningOfBuffer, word).caret == 0 && Do(e, EndOfBuffer, word).caret == |e.text|
  {
  }

  // To the start of the line, but for the very start of a text that begins with a
  // newline; and to its end.
  lemma LineMotions(e: Editor, word: Words)
    requires InText(e)
    ensures forall cmd | cmd in {BeginningOfLine, EndOfLine, PreviousLine, NextLine} :: OnlyMoves(e, Do(e, cmd, word))
    ensures var at := Do(e, BeginningOfLine, word).caret;
            IsLineStart(e.text, e.caret, at) <==> !(e.caret == 0 && e.text != "" && e.text[0] == '\n')
    ensures var at := Do(e, EndOfLine, word).caret;
            e.caret <= at <= |e.text| && NoNewline(e.text, e.caret, at) && (at < |e.text| ==> e.text[at] == '\n')
  {
    LineStartIsRight(e.text, e.caret);
  }

  // Up and down a line, `s` being where this line starts and `p` the one above.
  lemma MovesUp(e: Editor, s: nat, p: nat, word: Words)
    requires InText(e) && IsLineStart(e.text, e.caret, s) && (s > 0 ==> IsLineStart(e.text, s - 1, p))
    ensures Do(e, PreviousLine, word).caret
         == if s == 0 then 0 else if s == 1 then e.caret else Min(p + e.caret - s, s - 1)
  {
    PreviousLineIsRight(e.text, e.caret, s, p);
    assert Do(e, PreviousLine, word).caret == PreviousLineCaret(e.text, e.caret);
  }

  lemma MovesDown(e: Editor, s: nat, word: Words)
    requires InText(e) && IsLineStart(e.text, e.caret, s)
    ensures var end, to := LineEnd(e.text, e.caret), Do(e, NextLine, word).caret;
            if end == |e.text| then to == end
            else if e.caret == 0 && e.text[0] == '\n' then to == e.caret
            else to == Min(end + 1 + e.caret - s, LineEnd(e.text, end + 1))
  {
    NextLineIsRight(e.text, e.caret, s);
    assert Do(e, NextLine, word).caret == NextLineCaret(e.text, e.caret);
  }

  // Over what is no word and then one whole word, either way.
  lemma WordMotions(e: Editor, word: Words) returns (m: nat, n: nat)
    requires InText(e)
    ensures OnlyMoves(e, Do(e, ForwardWord, word)) && OnlyMoves(e, Do(e, BackwardWord, word))
    ensures SpansWord(e.text, e.caret, m, Do(e, ForwardWord, word).caret, word)
    ensures SpansWordBack(e.text, e.caret, n, Do(e, BackwardWord, word).caret, word)
  {
    m, n := SkipTo(e.text, e.caret, word, true), SkipBack(e.text, e.caret, word, true);
    ForwardWordSpans(e.text, e.caret, word);
    BackwardWordSpans(e.text, e.caret, word);
  }

  // The word kills take just what the word motions move over.
  lemma KillsForward(e: Editor, word: Words)
    requires InText(e)
    ensures var f, to := Do(e, KillWord, word), Do(e, ForwardWord, word).caret;
            e.caret <= to <= |e.text| && f.caret == e.caret && f.text == e.text[..e.caret] + e.text[to..]
  {
    assert e.text[..e.caret] + e.text[e.caret..] == e.text;
    if Takes(e, KillWord, word) { KillIs(e, KillWord, word); }
  }

  lemma KillsBackward(e: Editor, word: Words)
    requires InText(e)
    ensures var f, to := Do(e, BackwardKillWord, word), Do(e, BackwardWord, word).caret;
            to <= e.caret && f.caret == to && f.text == e.text[..to] + e.text[e.caret..]
  {
    assert e.text[..e.caret] + e.text[e.caret..] == e.text;
    if Takes(e, BackwardKillWord, word) { KillIs(e, BackwardKillWord, word); }
  }

  // The character after the caret goes, if there is one, and is not kept.
  lemma DeletesChar(e: Editor, word: Words)
    requires InText(e)
    ensures var f := Do(e, DeleteChar, word);
            && f.caret == e.caret && f.ring == Ring(e.ring.killed, None)
            && f.text == if e.caret < |e.text| then e.text[..e.caret] + e.text[e.caret + 1..] else e.text
  {
    if e.caret < |e.text| { assert e.text[..e.caret] + "" + e.text[e.caret + 1..] == e.text[..e.caret] + e.text[e.caret + 1..]; }
  }

  // A kill that takes something, spelled out.
  lemma KillIs(e: Editor, cmd: Command, word: Words)
    requires InText(e) && Takes(e, cmd, word)
    ensures var start, end := KillStart(cmd, e.text, e.caret, word), KillEnd(cmd, e.text, e.caret, word);
            var f := Do(e, cmd, word);
            && f.text == e.text[..start] + e.text[end..] && f.caret == start
            && f.ring == KillRing(e.ring, e.text, e.caret, start, end)
            && (start == e.caret || end == e.caret)
  {
    var start, end := KillStart(cmd, e.text, e.caret, word), KillEnd(cmd, e.text, e.caret, word);
    assert e.text[..start] + "" == e.text[..start];
  }

  lemma Parts(a: string, b: string)
    ensures (a + b)[..|a|] == a && (a + b)[|a|..] == b
  {
  }

  lemma PutBack(v: string, killed: string, start: nat, caret: nat, end: nat)
    requires start <= caret <= end <= |v|
    ensures v[..start] + v[start..end] + v[end..] == v
    ensures end == caret ==> v[..start] + (v[start..end] + killed) + v[end..] == v[..caret] + killed + v[caret..]
    ensures start == caret ==> v[..start] + (killed + v[start..end]) + v[end..] == v[..caret] + killed + v[caret..]
  {
    assert v[..caret] == v[..start] + v[start..caret];
    assert v[caret..] == v[caret..end] + v[end..];
  }

  // A kill that takes something chains on, and the ring rebuilds the text the
  // chain began with: this text, or the one before if the kill joins.
  lemma KillRebuilds(e: Editor, cmd: Command, word: Words, original: string)
    requires InText(e) && Takes(e, cmd, word)
    requires if Joins(e.ring, e.text, e.caret) then Rebuilds(e, original) else original == e.text
    ensures var f := Do(e, cmd, word);
            Joins(f.ring, f.text, f.caret) && Rebuilds(f, original)
  {
    var start, end := KillStart(cmd, e.text, e.caret, word), KillEnd(cmd, e.text, e.caret, word);
    KillIs(e, cmd, word);
    KillRingRebuilds(e, start, end, original);
  }

  lemma KillRingRebuilds(e: Editor, start: nat, end: nat, original: string)
    requires InText(e) && start <= e.caret <= end <= |e.text| && start < end && (start == e.caret || end == e.caret)
    requires if Joins(e.ring, e.text, e.caret) then Rebuilds(e, original) else original == e.text
    ensures var f := Editor(KillRing(e.ring, e.text, e.caret, start, end), e.text[..start] + e.text[end..], start);
            Joins(f.ring, f.text, f.caret) && Rebuilds(f, original)
  {
    Parts(e.text[..start], e.text[end..]);
    PutBack(e.text, e.ring.killed, start, e.caret, end);
  }

  function DoAll(e: Editor, cmds: seq<Command>, word: Words): (f: Editor)
    requires InText(e)
    ensures InText(f)
    decreases |cmds|
  {
    if cmds == [] then e else DoAll(Do(e, cmds[0], word), cmds[1..], word)
  }

  // Kills only, each of them taking something.
  predicate KillsAll(e: Editor, cmds: seq<Command>, word: Words)
    requires InText(e)
    decreases |cmds|
  {
    cmds != [] ==> Takes(e, cmds[0], word) && KillsAll(Do(e, cmds[0], word), cmds[1..], word)
  }

  lemma {:induction false} ChainRebuilds(e: Editor, cmds: seq<Command>, word: Words, original: string)
    requires InText(e) && KillsAll(e, cmds, word) && Joins(e.ring, e.text, e.caret) && Rebuilds(e, original)
    ensures Rebuilds(DoAll(e, cmds, word), original)
    decreases |cmds|
  {
    if cmds != [] {
      KillRebuilds(e, cmds[0], word, original);
      ChainRebuilds(Do(e, cmds[0], word), cmds[1..], word, original);
    }
  }

  // Any run of kills, forward, backward or of lines in any mix, each taking some
  // text and the first starting afresh: a yank puts the text back as it was.
  lemma YankRestores(e: Editor, cmds: seq<Command>, word: Words)
    requires InText(e) && cmds != [] && KillsAll(e, cmds, word) && !Joins(e.ring, e.text, e.caret)
    ensures Do(DoAll(e, cmds, word), Yank, word).text == e.text
  {
    KillRebuilds(e, cmds[0], word, e.text);
    ChainRebuilds(Do(e, cmds[0], word), cmds[1..], word, e.text);
    YankIs(DoAll(e, cmds, word), word);
  }

  lemma YankIs(e: Editor, word: Words)
    requires InText(e)
    ensures Rebuilds(e, Do(e, Yank, word).text) && Do(e, Yank, word).caret == e.caret + |e.ring.killed|
  {
  }

  // A kill that takes nothing keeps what was killed, but the next kill no longer
  // joins it: that text is lost to the yank.
  lemma EmptyKillBreaks(e: Editor, cmd: Command, next: Command, word: Words)
    requires InText(e) && IsKill(cmd) && !Takes(e, cmd, word)
    ensures var f := Do(e, cmd, word);
            && f.text == e.text && f.caret == e.caret && f.ring.killed == e.ring.killed
            && (Takes(f, next, word) ==>
                  Do(f, next, word).ring.killed
                    == f.text[KillStart(next, f.text, f.caret, word)..KillEnd(next, f.text, f.caret, word)])
  {
  }

  // A chain has text to join to, after any command.
  lemma ChainHasText(ring: Ring, cmd: Command, v: string, caret: nat, word: Words)
    requires caret <= |v| && (ring.chain.Some? ==> ring.killed != "")
    ensures var after := RingAfter(ring, cmd, v, caret, word);
            after.chain.Some? ==> after.killed != ""
  {
  }

  // The ring a kill leaves: what it took alone, or put before or after the rest.
  lemma KillJoins(e: Editor, cmd: Command, word: Words)
    requires InText(e) && Takes(e, cmd, word)
    ensures var taken := e.text[KillStart(cmd, e.text, e.caret, word)..KillEnd(cmd, e.text, e.caret, word)];
            Do(e, cmd, word).ring.killed
              == if !Joins(e.ring, e.text, e.caret) then taken
                 else if cmd.BackwardKillWord? then taken + e.ring.killed
                 else e.ring.killed + taken
  {
    KillIs(e, cmd, word);
  }

  // After a kill the text or the caret is changed from outside. Whatever kill
  // comes next, it starts afresh if and only if the caret or the length differs:
  // a change of the text that keeps both is not noticed, and the kill joins.
  lemma SameLengthJoins(e: Editor, text: string, caret: nat, cmd: Command, word: Words)
    requires e.ring.killed != "" && Joins(e.ring, e.text, e.caret)
    requires caret <= |text| && Takes(Editor(e.ring, text, caret), cmd, word)
    ensures Do(Editor(e.ring, text, caret), cmd, word).ring.killed
              == text[KillStart(cmd, text, caret, word)..KillEnd(cmd, text, caret, word)]
        <==> !(caret == e.caret && |text| == |e.text|)
  {
    var f := Editor(e.ring, text, caret);
    KillJoins(f, cmd, word);
    var taken := text[KillStart(cmd, text, caret, word)..KillEnd(cmd, text, caret, word)];
    assert |taken + e.ring.killed| > |taken| && |e.ring.killed + taken| > |taken|;
  }

  // "ab" is killed and the newline left of its line then replaced by "z", which the
  // next kill joins to it.
  lemma JoinedAcrossEdit(word: Words)
    ensures var e := Do(Editor(Ring("", None), "ab\n", 0), KillLine, word);
            Do(e.(text := "z"), KillLine, word).ring.killed == "abz"
  {
  }

  class Keys {
    var killed: string
    var chain: Option<Chain>
    const word: Words

    constructor (word: Words)
      ensures Now() == Ring("", None) && this.word == word
    {
      killed, chain := "", None;
      this.word := word;
    }

    function Now(): Ring
      reads this
    {
      Ring(killed, chain)
    }

    method Interrupt()
      modifies this`chain
      ensures Now() == Ring(old(killed), None)
    {
      chain := None;
    }

    method Kill(v: string, caret: nat, start: nat, end: nat, was: Option<Chain>) returns (o: Outcome)
      requires start <= caret <= end <= |v| && chain.None?
      modifies this
      ensures Now() == KillRing(Ring(old(killed), was), v, caret, start, end) && o == KillOutcome(caret, start, end)
    {
      if start == end { return Outcome(caret, None); }
      var text := v[start..end];
      if was.None? || was.value.caret != caret || was.value.length != |v| {
        killed := text;
      } else {
        killed := if start < caret then text + killed else killed + text;
      }
      chain := Some(Chain(start, |v| - |text|));
      o := Outcome(start, Some(Edit(start, end, "")));
    }

    method Run(cmd: Command, v: string, caret: nat) returns (o: Outcome)
      requires caret <= |v|
      modifies this
      ensures Now() == RingAfter(old(Now()), cmd, v, caret, word)
      ensures o == OutcomeOf(old(Now()), cmd, v, caret, word)
    {
      var was := chain;
      chain := None;
      if cmd.KillWord? {
        var end := WordEnd(v, caret, word);
        o := Kill(v, caret, caret, end, was);
      } else if cmd.BackwardKillWord? {
        var start := WordStart(v, caret, word);
        o := Kill(v, caret, start, caret, was);
      } else if cmd.KillLine? {
        o := Kill(v, caret, caret, KillEnd(cmd, v, caret, word), was);
      } else {
        o := OutcomeOf(Now(), cmd, v, caret, word);
      }
    }
  }
}
