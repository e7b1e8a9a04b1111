// The two scanners that find the forms open at the REPL's cursor:
// `indentForNewline` (ui-assets/repl-syntax.js) reads every character, while
// `callAtCursor` (ui-assets/repl-symbols.js) jumps over strings, comments and
// nested forms. Both have the same forms open at every place if and only if no
// bracket in code that is not a round one opens or closes a form.
module LispScan {
  import opened Wrappers
  import opened WhiteSpace
  import opened LispText

  // ---------------------------------------------------- character by character

  datatype Mode = Code | InString | InComment

  // Where the character scan is: its mode and column, and for each form still
  // open the index and the column its bracket was met at. `joined` says that the
  // last newline passed was escaped inside a string, and `joins` remembers that
  // for each open form.
  datatype Walk = Walk(mode: Mode, col: nat, open: seq<nat>, cols: seq<nat>, joined: bool, joins: seq<bool>)

  const START := Walk(Code, 0, [], [], false, [])

  predicate EscapeAt(text: string, cursor: nat, i: nat, w: Walk)
    requires i < cursor <= |text|
  {
    w.mode == InString && text[i] == '\\' && i + 1 < cursor
  }

  // The walk after the character at `i`, or the two at `i` when it is an escape.
  function Step(text: string, cursor: nat, i: nat, w: Walk): Walk
    requires i < cursor <= |text|
  {
    var c := text[i];
    if EscapeAt(text, cursor, i, w) then
      w.(col := w.col + 2, joined := if text[i + 1] == '\n' then true else w.joined)
    else if c == '\n' then
      w.(mode := if w.mode == InComment then Code else w.mode, col := 0, joined := false)
    else
      var next := w.(col := w.col + 1);
      match w.mode
      case InComment => next
      case InString => if c == '"' then next.(mode := Code) else next
      case Code =>
        if c == ';' then next.(mode := InComment)
        else if c == '"' then next.(mode := InString)
        else if IsOpen(c) then
          next.(open := w.open + [i], cols := w.cols + [w.col], joins := w.joins + [w.joined])
        else if IsClose(c) then
          next.(open := Pop(w.open), cols := Pop(w.cols), joins := Pop(w.joins))
        else next
  }

  function StepLength(text: string, cursor: nat, i: nat, w: Walk): nat
    requires i < cursor <= |text|
  {
    if EscapeAt(text, cursor, i, w) then 2 else 1
  }

  // Removing the last element; nothing happens to an empty stack.
  function Pop<T>(s: seq<T>): (r: seq<T>)
    ensures |r| <= |s|
  {
    if s == [] then [] else s[..|s| - 1]
  }

  function WalkFrom(text: string, cursor: nat, i: nat, w: Walk): Walk
    requires i <= cursor <= |text|
    decreases cursor - i
  {
    if i == cursor then w
    else WalkFrom(text, cursor, i + StepLength(text, cursor, i, w), Step(text, cursor, i, w))
  }

  // The indent of a new line at `cursor`: two past the column of the innermost
  // form still open.
  method IndentForNewline(text: string, cursor: nat) returns (indent: nat)
    requires cursor <= |text|
    ensures var cols := WalkFrom(text, cursor, 0, START).cols;
            indent == if cols == [] then 0 else cols[|cols| - 1] + 2
  {
    var col := 0;
    var stack: seq<nat> := [];
    var inString, inComment := false, false;
    ghost var w := START;
    var i := 0;
    while i < cursor
      invariant i <= cursor
      invariant WalkFrom(text, cursor, i, w) == WalkFrom(text, cursor, 0, START)
      invariant w.col == col && w.cols == stack
      invariant inString <==> w.mode == InString
      invariant inComment <==> w.mode == InComment
    {
      var ch := text[i];
      ghost var was := w;
      w := Step(text, cursor, i, was);
      assert WalkFrom(text, cursor, i, was) == WalkFrom(text, cursor, i + StepLength(text, cursor, i, was), w);
      if inComment {
        if ch == '\n' {
          inComment := false;
          col := 0;
        } else {
          col := col + 1;
        }
      } else if inString {
        if ch == '\\' && i + 1 < cursor {
          col := col + 2;
          i := i + 1;
        } else {
          if ch == '"' { inString := false; }
          if ch == '\n' { col := 0; } else { col := col + 1; }
        }
      } else if ch == ';' {
        inComment := true;
        col := col + 1;
      } else if ch == '"' {
        inString := true;
        col := col + 1;
      } else if ch == '\n' {
        col := 0;
      } else {
        if ch == '(' || ch == '[' || ch == '{' {
          stack := stack + [col];
        } else if ch == ')' || ch == ']' || ch == '}' {
          stack := Pop(stack);
        }
        col := col + 1;
      }
      i := i + 1;
    }
    if |stack| == 0 { return 0; }
    return stack[|stack| - 1] + 2;
  }

  // ------------------------------------------------------------ skipping ahead

  // The index of a string's closing quote, read from `j` inside it, or
  // `limit` - 1 when it does not close before `limit`.
  function StringEnd(text: string, j: nat, limit: nat): (r: nat)
    requires 0 < limit <= |text|
    ensures r == limit - 1 || j <= r < limit
    decreases limit - j
  {
    if j >= limit then limit - 1
    else if text[j] == '\\' then StringEnd(text, j + 2, limit)
    else if text[j] == '"' then j
    else StringEnd(text, j + 1, limit)
  }

  // The first newline at or after `i`, or the length of the text.
  function NewlineFrom(text: string, i: nat): (r: nat)
    requires i <= |text|
    ensures i <= r <= |text|
    decreases |text| - i
  {
    if i == |text| || text[i] == '\n' then i else NewlineFrom(text, i + 1)
  }

  // The newline that ends the comment at `i`, or `limit` - 1.
  function LineEnd(text: string, i: nat, limit: nat): (r: nat)
    requires i < limit <= |text|
    ensures i <= r < limit
  {
    var j := NewlineFrom(text, i);
    if j >= limit then limit - 1 else j
  }

  // The index past the string, comment or single character at `i`.
  function Jump(text: string, i: nat, limit: nat): (r: nat)
    requires i < limit <= |text|
    ensures i < r <= limit
  {
    if text[i] == '"' then StringEnd(text, i + 1, limit) + 1
    else if text[i] == ';' then LineEnd(text, i, limit) + 1
    else i + 1
  }

  function PushPop(text: string, i: nat, open: seq<nat>): seq<nat>
    requires i < |text|
  {
    if text[i] == '(' then open + [i] else if text[i] == ')' then Pop(open) else open
  }

  // The forms open at `limit`, scanning on from `i` with `open` open.
  function OpenFrom(text: string, limit: nat, i: nat, open: seq<nat>): seq<nat>
    requires i <= limit <= |text|
    decreases limit - i
  {
    if i == limit then open
    else OpenFrom(text, limit, Jump(text, i, limit), PushPop(text, i, open))
  }

  // The paren that closes the form that `depth` is counted from, or
  // `limit` - 1 when none does.
  function FormEnd(text: string, limit: nat, j: nat, depth: int): (r: nat)
    requires 0 < limit <= |text| && j <= limit
    ensures r == limit - 1 || j <= r < limit
    decreases limit - j
  {
    if j == limit then limit - 1
    else if text[j] == '(' then FormEnd(text, limit, j + 1, depth + 1)
    else if text[j] == ')' then if depth == 1 then j else FormEnd(text, limit, j + 1, depth - 1)
    else FormEnd(text, limit, Jump(text, j, limit), depth)
  }

  method FindStringEnd(text: string, i: nat, limit: nat) returns (r: nat)
    requires i < limit <= |text|
    ensures r == StringEnd(text, i + 1, limit)
  {
    var j := i + 1;
    while j < limit
      invariant StringEnd(text, j, limit) == StringEnd(text, i + 1, limit)
    {
      if text[j] == '\\' {
        j := j + 1;
      } else if text[j] == '"' {
        return j;
      }
      j := j + 1;
    }
    return limit - 1;
  }

  method FindFormEnd(text: string, i: nat, limit: nat) returns (r: nat)
    requires i < limit <= |text|
    ensures r == FormEnd(text, limit, i, 0)
  {
    var depth := 0;
    var j := i;
    while j < limit
      invariant j <= limit
      invariant FormEnd(text, limit, j, depth) == FormEnd(text, limit, i, 0)
      decreases limit - j
    {
      var c := text[j];
      if c == '"' {
        j := FindStringEnd(text, j, limit);
      } else if c == ';' {
        j := LineEnd(text, j, limit);
      } else if c == '(' {
        depth := depth + 1;
      } else if c == ')' {
        depth := depth - 1;
        if depth == 0 { return j; }
      }
      j := j + 1;
    }
    return limit - 1;
  }

  // ----------------------------------------------- both scans open the same forms

  predicate IsRound(c: char) { c == '(' || c == ')' }

  // A bracket of another kind that opens a form or closes one of `open`.
  predicate ActsOtherwise(c: char, open: seq<nat>) {
    !IsRound(c) && (IsOpen(c) || (IsClose(c) && open != []))
  }

  // Outside strings and comments, from `i` on with `open` open, nothing does.
  predicate RoundCode(text: string, limit: nat, i: nat, open: seq<nat>)
    requires i <= limit <= |text|
    decreases limit - i
  {
    i < limit ==>
      && !ActsOtherwise(text[i], open)
      && RoundCode(text, limit, Jump(text, i, limit), PushPop(text, i, open))
  }

  // The rest of a string, read character by character, opens and closes nothing.
  lemma {:induction false} StringWalk(text: string, cursor: nat, j: nat, w: Walk) returns (after: Walk)
    requires 0 < cursor <= |text| && j <= cursor && w.mode == InString
    ensures var e := StringEnd(text, j, cursor) + 1;
            && WalkFrom(text, cursor, j, w) == WalkFrom(text, cursor, e, after)
            && after.open == w.open && (after.mode == Code || e == cursor)
    decreases cursor - j
  {
    if j == cursor {
      return w;
    }
    var next := Step(text, cursor, j, w);
    if text[j] == '\\' && j + 1 == cursor {
      return next;
    } else if text[j] == '"' {
      return next;
    }
    after := StringWalk(text, cursor, j + StepLength(text, cursor, j, w), next);
  }

  lemma {:induction false} CommentWalk(text: string, cursor: nat, j: nat, w: Walk) returns (after: Walk)
    requires j <= cursor <= |text| && w.mode == InComment
    ensures var n := NewlineFrom(text, j);
            var e := if n >= cursor then cursor else n + 1;
            && WalkFrom(text, cursor, j, w) == WalkFrom(text, cursor, e, after)
            && after.open == w.open && (after.mode == Code || e == cursor)
    decreases cursor - j
  {
    if j == cursor {
      return w;
    }
    var next := Step(text, cursor, j, w);
    if text[j] == '\n' {
      return next;
    }
    after := CommentWalk(text, cursor, j + 1, next);
  }

  lemma {:induction false} OpenStep(text: string, limit: nat, j: nat, open: seq<nat>)
    requires j < limit <= |text|
    ensures OpenFrom(text, limit, j, open) == OpenFrom(text, limit, Jump(text, j, limit), PushPop(text, j, open))
  {
  }

  lemma {:induction false} WalkStep(text: string, cursor: nat, i: nat, w: Walk)
    requires i < cursor <= |text| && w.mode == Code && !ActsOtherwise(text[i], w.open)
    ensures WalkFrom(text, cursor, i, w) == WalkFrom(text, cursor, i + 1, Step(text, cursor, i, w))
    ensures var next := Step(text, cursor, i, w);
            && next.open == PushPop(text, i, w.open)
            && next.mode == if text[i] == '"' then InString else if text[i] == ';' then InComment else Code
  {
  }

  lemma {:induction false} SameOpenFrom(text: string, cursor: nat, i: nat, w: Walk)
    requires i <= cursor <= |text| && RoundCode(text, cursor, i, w.open) && (w.mode == Code || i == cursor)
    ensures WalkFrom(text, cursor, i, w).open == OpenFrom(text, cursor, i, w.open)
    decreases cursor - i
  {
    if i < cursor {
      OpenStep(text, cursor, i, w.open);
      WalkStep(text, cursor, i, w);
      var after := WalkJump(text, cursor, i, Step(text, cursor, i, w));
      SameOpenFrom(text, cursor, Jump(text, i, cursor), after);
    }
  }

  // From just past the character at `i` to the end of what it starts.
  lemma {:induction false} WalkJump(text: string, cursor: nat, i: nat, w: Walk) returns (after: Walk)
    requires i < cursor <= |text|
    requires w.mode == if text[i] == '"' then InString else if text[i] == ';' then InComment else Code
    ensures WalkFrom(text, cursor, i + 1, w) == WalkFrom(text, cursor, Jump(text, i, cursor), after)
    ensures after.open == w.open && (after.mode == Code || Jump(text, i, cursor) == cursor)
  {
    if text[i] == '"' {
      after := StringWalk(text, cursor, i + 1, w);
    } else if text[i] == ';' {
      after := CommentWalk(text, cursor, i + 1, w);
    } else {
      after := w;
    }
  }

  predicate AgreeAt(text: string, cursor: nat)
    requires cursor <= |text|
  {
    OpenFrom(text, cursor, 0, []) == WalkFrom(text, cursor, 0, START).open
  }

  // Cut short by an earlier limit, a jump ends there.
  lemma JumpCut(text: string, i: nat, c: nat, limit: nat)
    requires i < c <= limit <= |text|
    ensures Jump(text, i, c) == if Jump(text, i, limit) <= c then Jump(text, i, limit) else c
  {
    if text[i] == '"' { StringEndCut(text, i + 1, c, limit); }
  }

  lemma {:induction false} StringEndCut(text: string, j: nat, c: nat, limit: nat)
    requires 0 < c <= limit <= |text|
    ensures StringEnd(text, j, c) == if StringEnd(text, j, limit) < c then StringEnd(text, j, limit) else c - 1
    decreases limit - j
  {
    if j < limit && text[j] != '"' { StringEndCut(text, if text[j] == '\\' then j + 2 else j + 1, c, limit); }
  }

  lemma {:induction false} RoundCodeCut(text: string, c: nat, limit: nat, i: nat, open: seq<nat>)
    requires i <= c <= limit <= |text| && RoundCode(text, limit, i, open)
    ensures RoundCode(text, c, i, open)
    decreases limit - i
  {
    if i < c {
      JumpCut(text, i, c, limit);
      if Jump(text, i, limit) <= c { RoundCodeCut(text, c, limit, Jump(text, i, limit), PushPop(text, i, open)); }
    }
  }

  // Where a bracket of another kind first acts.
  function FirstOther(text: string, limit: nat, i: nat, open: seq<nat>): (p: nat)
    requires i <= limit <= |text| && !RoundCode(text, limit, i, open)
    ensures i <= p < limit
    decreases limit - i
  {
    if ActsOtherwise(text[i], open) then i
    else FirstOther(text, limit, Jump(text, i, limit), PushPop(text, i, open))
  }

  // Just past it the character scan has opened or closed a form, the other not.
  lemma {:induction false} OtherDiffers(text: string, limit: nat, i: nat, w: Walk)
    requires i <= limit <= |text| && w.mode == Code && !RoundCode(text, limit, i, w.open)
    ensures var c := FirstOther(text, limit, i, w.open) + 1;
            WalkFrom(text, c, i, w).open != OpenFrom(text, c, i, w.open)
    decreases limit - i
  {
    var c := FirstOther(text, limit, i, w.open) + 1;
    if ActsOtherwise(text[i], w.open) {
      OtherActs(text, i, w);
    } else {
      JumpCut(text, i, c, limit);
      OpenStep(text, c, i, w.open);
      WalkStep(text, c, i, w);
      var after := WalkJump(text, c, i, Step(text, c, i, w));
      OtherDiffers(text, limit, Jump(text, i, limit), after);
    }
  }

  lemma OtherActs(text: string, i: nat, w: Walk)
    requires i < |text| && w.mode == Code && ActsOtherwise(text[i], w.open)
    ensures WalkFrom(text, i + 1, i, w).open != OpenFrom(text, i + 1, i, w.open)
  {
    OpenStep(text, i + 1, i, w.open);
    assert WalkFrom(text, i + 1, i, w) == Step(text, i + 1, i, w);
    assert |Step(text, i + 1, i, w).open| != |w.open|;
  }

  // The skipping scan has exactly the forms open that the character scan has, at
  // every place up to the cursor and whatever strings, escapes and comments the
  // text holds, if and only if no bracket in code acts that is not a round one.
  lemma SameOpen(text: string, cursor: nat)
    requires cursor <= |text|
    ensures RoundCode(text, cursor, 0, []) <==> forall c | 0 <= c <= cursor :: AgreeAt(text, c)
  {
    if RoundCode(text, cursor, 0, []) {
      forall c | 0 <= c <= cursor ensures AgreeAt(text, c) {
        RoundCodeCut(text, c, cursor, 0, []);
        SameOpenFrom(text, c, 0, START);
      }
    } else {
      OtherDiffers(text, cursor, 0, START);
      assert !AgreeAt(text, FirstOther(text, cursor, 0, []) + 1);
    }
  }

  // A text whose only brackets in code are round ones agrees everywhere.
  lemma {:induction false} RoundTextIsRound(text: string, limit: nat, i: nat, open: seq<nat>)
    requires i <= limit <= |text|
    requires forall k | i <= k < limit :: text[k] !in {'[', ']', '{', '}'}
    ensures RoundCode(text, limit, i, open)
    decreases limit - i
  {
    if i < limit { RoundTextIsRound(text, limit, Jump(text, i, limit), PushPop(text, i, open)); }
  }

  // Square brackets in code are where they differ: only the character scan opens
  // one. In a string they make no difference.
  lemma SquareBracketsDiffer()
    ensures OpenFrom("[", 1, 0, []) == [] && WalkFrom("[", 1, 0, START).open == [0]
    ensures RoundCode("\"[\"", 3, 0, [])
  {
    assert WalkFrom("[", 1, 1, Step("[", 1, 0, START)).open == [] + [0];
    var text := "\"[\"";
    assert StringEnd(text, 1, 3) == StringEnd(text, 2, 3) == 2;
    assert Jump(text, 0, 3) == 3;
  }

  // --------------------------------------------------------- columns of forms

  // Where the line holding index `i` starts.
  function LineStart(text: string, i: nat): (r: nat)
    requires i <= |text|
    ensures r <= i
  {
    if i == 0 || text[i - 1] == '\n' then i else LineStart(text, i - 1)
  }

  function Column(text: string, i: nat): nat
    requires i <= |text|
  {
    i - LineStart(text, i)
  }

  // A counted column is the true one unless the line was joined to the one
  // before by an escaped newline; then it is greater.
  predicate CountsColumn(text: string, i: nat, col: nat, joined: bool)
    requires i <= |text|
  {
    if joined then
      && col > Column(text, i)
      && LineStart(text, i) >= 2
      && text[LineStart(text, i) - 2..LineStart(text, i)] == "\\\n"
    else col == Column(text, i)
  }

  ghost predicate Tracks(text: string, i: nat, w: Walk)
    requires i <= |text|
  {
    CountsColumn(text, i, w.col, w.joined) && OpenTracks(text, i, w.open, w.cols, w.joins)
  }

  ghost predicate OpenTracks(text: string, i: nat, open: seq<nat>, cols: seq<nat>, joins: seq<bool>)
    requires i <= |text|
  {
    && |open| == |cols| == |joins|
    && forall k | 0 <= k < |open| :: open[k] < i && CountsColumn(text, open[k], cols[k], joins[k])
  }

  lemma {:induction false} NextColumn(text: string, i: nat, col: nat, joined: bool)
    requires i < |text| && text[i] != '\n' && CountsColumn(text, i, col, joined)
    ensures CountsColumn(text, i + 1, col + 1, joined)
  {
    assert LineStart(text, i + 1) == LineStart(text, i);
  }

  lemma {:induction false} JoinedColumn(text: string, i: nat, col: nat)
    requires i + 1 < |text| && text[i] == '\\' && text[i + 1] == '\n'
    ensures CountsColumn(text, i + 2, col + 2, true)
  {
    assert LineStart(text, i + 2) == i + 2;
    assert text[i..i + 2] == "\\\n";
  }

  lemma {:induction false} StepColumn(text: string, cursor: nat, i: nat, w: Walk)
    requires i < cursor <= |text| && CountsColumn(text, i, w.col, w.joined)
    ensures var next := Step(text, cursor, i, w);
            CountsColumn(text, i + StepLength(text, cursor, i, w), next.col, next.joined)
  {
    if text[i] == '\n' {
      assert LineStart(text, i + 1) == i + 1;
    } else {
      NextColumn(text, i, w.col, w.joined);
      if EscapeAt(text, cursor, i, w) {
        if text[i + 1] == '\n' {
          JoinedColumn(text, i, w.col);
        } else {
          NextColumn(text, i + 1, w.col + 1, w.joined);
        }
      }
    }
  }

  lemma PushTracks(text: string, i: nat, w: Walk)
    requires i < |text| && Tracks(text, i, w)
    ensures OpenTracks(text, i + 1, w.open + [i], w.cols + [w.col], w.joins + [w.joined])
  {
  }

  lemma PopTracks(text: string, i: nat, n: nat, w: Walk)
    requires i <= n <= |text| && Tracks(text, i, w)
    ensures OpenTracks(text, n, w.open, w.cols, w.joins)
    ensures OpenTracks(text, n, Pop(w.open), Pop(w.cols), Pop(w.joins))
  {
  }

  // A step opens the form at `i`, closes one, or does neither.
  lemma StepOpens(text: string, cursor: nat, i: nat, w: Walk)
    requires i < cursor <= |text|
    ensures var next := Step(text, cursor, i, w);
            || (next.open == w.open && next.cols == w.cols && next.joins == w.joins)
            || (StepLength(text, cursor, i, w) == 1
                && next.open == w.open + [i] && next.cols == w.cols + [w.col] && next.joins == w.joins + [w.joined])
            || (next.open == Pop(w.open) && next.cols == Pop(w.cols) && next.joins == Pop(w.joins))
  {
  }

  lemma {:induction false} StepOpen(text: string, cursor: nat, i: nat, w: Walk)
    requires i < cursor <= |text| && Tracks(text, i, w)
    ensures var next := Step(text, cursor, i, w);
            OpenTracks(text, i + StepLength(text, cursor, i, w), next.open, next.cols, next.joins)
  {
    StepOpens(text, cursor, i, w);
    PushTracks(text, i, w);
    PopTracks(text, i, i + StepLength(text, cursor, i, w), w);
  }

  lemma StepTracks(text: string, cursor: nat, i: nat, w: Walk)
    requires i < cursor <= |text| && Tracks(text, i, w)
    ensures Tracks(text, i + StepLength(text, cursor, i, w), Step(text, cursor, i, w))
  {
    StepColumn(text, cursor, i, w);
    StepOpen(text, cursor, i, w);
  }

  lemma {:induction false} WalkTracks(text: string, cursor: nat, i: nat, w: Walk)
    requires i <= cursor <= |text| && Tracks(text, i, w)
    ensures Tracks(text, cursor, WalkFrom(text, cursor, i, w))
    decreases cursor - i
  {
    if i < cursor {
      StepTracks(text, cursor, i, w);
      WalkTracks(text, cursor, i + StepLength(text, cursor, i, w), Step(text, cursor, i, w));
    }
  }

  // ------------------------------------------------- the walk opens what is open

  // The newline at `k` is escaped inside a string.
  ghost predicate EscapedNewline(text: string, k: nat) {
    k < |text| && text[k] == '\n'
    && exists q :: 0 <= q < k && OpenString(text, q, k) && CodeAt(text, q) && Backslashes(text, q + 1, k) % 2 == 1
  }

  // The line of `i` is joined to the one before it.
  ghost predicate Joined(text: string, i: nat)
    requires i <= |text|
  {
    LineStart(text, i) > 0 && EscapedNewline(text, LineStart(text, i) - 1)
  }

  // A string opened at `q`, and no escape pending unless the walk ends here.
  ghost predicate InStringFrom(text: string, q: nat, i: nat, cursor: nat) {
    && OpenString(text, q, i) && CodeAt(text, q)
    && (i < cursor ==> Backslashes(text, q + 1, i) % 2 == 0)
  }

  ghost predicate ModeFits(text: string, cursor: nat, i: nat, mode: Mode) {
    match mode
    case Code => CodeAt(text, i)
    case InComment => CommentAt(text, i)
    case InString => exists q :: 0 <= q < i && InStringFrom(text, q, i, cursor)
  }

  // Where the walk is at `i`: its mode is what the place is, its forms are the
  // brackets open there, and it knows which lines are joined.
  ghost predicate WalkFits(text: string, cursor: nat, i: nat, w: Walk)
    requires i <= cursor <= |text|
  {
    && ModeFits(text, cursor, i, w.mode) && w.open == OpenAt(text, i)
    && (w.joined <==> Joined(text, i))
    && |w.joins| == |w.open| && forall k | 0 <= k < |w.open| :: w.joins[k] <==> Joined(text, w.open[k])
  }

  lemma OpenStays(text: string, i: nat)
    requires i < |text| && !CodeBracket(text, i)
    ensures OpenAt(text, i + 1) == OpenAt(text, i)
  {
  }

  lemma NextLineStart(text: string, i: nat)
    requires i < |text|
    ensures LineStart(text, i + 1) == if text[i] == '\n' then i + 1 else LineStart(text, i)
  {
  }

  // The line goes on, or begins with a newline that is not escaped.
  lemma JoinedNext(text: string, i: nat)
    requires i < |text| && !EscapedNewline(text, i)
    ensures Joined(text, i + 1) <==> text[i] != '\n' && Joined(text, i)
  {
    NextLineStart(text, i);
  }

  lemma EscapedInString(text: string, i: nat)
    requires EscapedNewline(text, i)
    ensures StringAt(text, i)
  {
    var q :| 0 <= q < i && OpenString(text, q, i) && CodeAt(text, q) && Backslashes(text, q + 1, i) % 2 == 1;
    InsideString(text, q, i);
  }

  lemma CodeStep(text: string, cursor: nat, i: nat, w: Walk)
    requires i < cursor <= |text| && WalkFits(text, cursor, i, w) && w.mode == Code
    ensures WalkFits(text, cursor, i + 1, Step(text, cursor, i, w))
  {
    AfterCode(text, i);
    if EscapedNewline(text, i) { EscapedInString(text, i); }
    JoinedNext(text, i);
    if text[i] == '"' { assert InStringFrom(text, i, i + 1, cursor); }
  }

  lemma CommentStep(text: string, cursor: nat, i: nat, w: Walk)
    requires i < cursor <= |text| && WalkFits(text, cursor, i, w) && w.mode == InComment
    ensures WalkFits(text, cursor, i + 1, Step(text, cursor, i, w))
  {
    AfterComment(text, i);
    OneOfThree(text, i);
    if EscapedNewline(text, i) { EscapedInString(text, i); }
    JoinedNext(text, i);
    OpenStays(text, i);
  }

  // A newline met in a string with no escape pending is not escaped.
  lemma EvenNewline(text: string, q: nat, i: nat)
    requires i < |text| && OpenString(text, q, i) && CodeAt(text, q) && Backslashes(text, q + 1, i) % 2 == 0
    ensures !EscapedNewline(text, i)
  {
    if EscapedNewline(text, i) {
      var p :| 0 <= p < i && OpenString(text, p, i) && CodeAt(text, p) && Backslashes(text, p + 1, i) % 2 == 1;
      OneString(text, p, q, i);
    }
  }

  lemma StringStep(text: string, cursor: nat, i: nat, w: Walk)
    requires i < cursor <= |text| && WalkFits(text, cursor, i, w) && w.mode == InString && !EscapeAt(text, cursor, i, w)
    ensures WalkFits(text, cursor, i + 1, Step(text, cursor, i, w))
  {
    var q :| 0 <= q < i && InStringFrom(text, q, i, cursor);
    InsideString(text, q, i);
    AfterString(text, q, i);
    EvenNewline(text, q, i);
    JoinedNext(text, i);
    OpenStays(text, i);
    if text[i] != '"' { assert InStringFrom(text, q, i + 1, cursor); }
  }

  lemma EscapeStep(text: string, cursor: nat, i: nat, w: Walk)
    requires i < cursor <= |text| && WalkFits(text, cursor, i, w) && EscapeAt(text, cursor, i, w)
    ensures WalkFits(text, cursor, i + 2, Step(text, cursor, i, w))
  {
    var q :| 0 <= q < i && InStringFrom(text, q, i, cursor);
    InsideString(text, q, i);
    AfterString(text, q, i);
    InsideString(text, q, i + 1);
    AfterString(text, q, i + 1);
    OpenStays(text, i);
    OpenStays(text, i + 1);
    EvenNewline(text, q, i);
    JoinedNext(text, i);
    assert Backslashes(text, q + 1, i + 1) % 2 == 1;
    assert InStringFrom(text, q, i + 2, cursor);
    if text[i + 1] == '\n' {
      assert EscapedNewline(text, i + 1);
      NextLineStart(text, i + 1);
    } else {
      JoinedNext(text, i + 1);
    }
  }

  lemma {:induction false} WalkFitsFrom(text: string, cursor: nat, i: nat, w: Walk)
    requires i <= cursor <= |text| && WalkFits(text, cursor, i, w)
    ensures WalkFits(text, cursor, cursor, WalkFrom(text, cursor, i, w))
    decreases cursor - i
  {
    if i < cursor {
      if EscapeAt(text, cursor, i, w) {
        EscapeStep(text, cursor, i, w);
      } else {
        match w.mode
        case Code => CodeStep(text, cursor, i, w);
        case InComment => CommentStep(text, cursor, i, w);
        case InString => StringStep(text, cursor, i, w);
      }
      WalkFitsFrom(text, cursor, i + StepLength(text, cursor, i, w), Step(text, cursor, i, w));
    }
  }

  lemma StartFits(text: string, cursor: nat)
    requires cursor <= |text|
    ensures WalkFits(text, cursor, 0, START)
  {
  }

  // The character scan ends with exactly the brackets open that are.
  lemma WalkIsOpen(text: string, cursor: nat)
    requires cursor <= |text|
    ensures WalkFrom(text, cursor, 0, START).open == OpenAt(text, cursor)
  {
    StartFits(text, cursor);
    WalkFitsFrom(text, cursor, 0, START);
  }

  // So does the skipping scan, where no other bracket acts in code.
  lemma SkipIsOpen(text: string, cursor: nat)
    requires cursor <= |text| && RoundCode(text, cursor, 0, [])
    ensures OpenFrom(text, cursor, 0, []) == OpenAt(text, cursor)
  {
    SameOpen(text, cursor);
    assert AgreeAt(text, cursor);
    WalkIsOpen(text, cursor);
  }

  // The end found for the string opened at `q` is its closing quote, or the last
  // place before the limit when it is not closed before that.
  lemma StringEndCloses(text: string, q: nat, limit: nat)
    requires q < limit <= |text|
    ensures var r := StringEnd(text, q + 1, limit);
            && (forall k | q < k < r :: !ClosesString(text, q, k))
            && (ClosesString(text, q, r) || r == limit - 1)
  {
    StringEndFrom(text, q, q + 1, limit);
  }

  lemma {:induction false} StringEndFrom(text: string, q: nat, j: nat, limit: nat)
    requires q < limit <= |text| && q < j && (forall k | q < k < j && k < limit :: !ClosesString(text, q, k))
    requires j < limit ==> Backslashes(text, q + 1, j) % 2 == 0
    ensures var r := StringEnd(text, j, limit);
            && (forall k | q < k < r :: !ClosesString(text, q, k))
            && (ClosesString(text, q, r) || r == limit - 1)
    decreases limit - j
  {
    if j < limit && text[j] != '"' {
      if text[j] == '\\' {
        assert Backslashes(text, q + 1, j + 1) % 2 == 1;
        StringEndFrom(text, q, j + 2, limit);
      } else {
        StringEndFrom(text, q, j + 1, limit);
      }
    }
  }

  // The column kept for each open form is its true column exactly when the newline
  // before it is not an escaped one inside a string.
  lemma IndentColumns(text: string, cursor: nat)
    requires cursor <= |text|
    ensures var w, open := WalkFrom(text, cursor, 0, START), OpenAt(text, cursor);
            && |w.cols| == |open|
            && forall k | 0 <= k < |open| ::
                 open[k] < cursor && (w.cols[k] == Column(text, open[k]) <==> !Joined(text, open[k]))
  {
    WalkTracks(text, cursor, 0, START);
    StartFits(text, cursor);
    WalkFitsFrom(text, cursor, 0, START);
  }

  // Where no string has an escaped newline before the cursor, indents are by true
  // columns.
  lemma IndentWithoutJoins(text: string, cursor: nat)
    requires cursor <= |text| && forall k | 0 <= k < cursor :: !EscapedNewline(text, k)
    ensures var w, open := WalkFrom(text, cursor, 0, START), OpenAt(text, cursor);
            |w.cols| == |open| && forall k | 0 <= k < |open| :: open[k] < cursor && w.cols[k] == Column(text, open[k])
  {
    IndentColumns(text, cursor);
  }

  // The form in the text below sits in column 1 of its line, and is counted in
  // column 4.
  lemma JoinedLineExample()
    ensures var text := "\"\\\n\"(";
            Column(text, 4) == 1 && WalkFrom(text, 5, 0, START).cols == [4]
  {
    var text := "\"\\\n\"(";
    var w1 := Step(text, 5, 0, START);
    var w2 := Step(text, 5, 1, w1);
    var w3 := Step(text, 5, 3, w2);
    var w4 := Step(text, 5, 4, w3);
    assert StepLength(text, 5, 1, w1) == 2;
    assert WalkFrom(text, 5, 5, w4) == w4;
    assert WalkFrom(text, 5, 4, w3) == w4;
    assert WalkFrom(text, 5, 3, w2) == w4;
    assert WalkFrom(text, 5, 1, w1) == w4;
    assert LineStart(text, 3) == 3 && LineStart(text, 4) == 3;
  }

  // ------------------------------------------------------- the call at a cursor

  // A form still open at the end stays where it was pushed, and whatever sits
  // above it was pushed later.
  ghost predicate KeptOrNew(f: seq<nat>, open: seq<nat>, i: nat) {
    forall k | 0 <= k < |f| :: f[k] >= i || (k < |open| && f[..k + 1] == open[..k + 1])
  }

  lemma {:induction false} LaterAbove(text: string, limit: nat, i: nat, open: seq<nat>)
    requires i <= limit <= |text|
    ensures KeptOrNew(OpenFrom(text, limit, i, open), open, i)
    decreases limit - i
  {
    if i < limit {
      var next := PushPop(text, i, open);
      LaterAbove(text, limit, Jump(text, i, limit), next);
      var f := OpenFrom(text, limit, Jump(text, i, limit), next);
      forall k | 0 <= k < |f| && f[k] < i
        ensures k < |open| && f[..k + 1] == open[..k + 1]
      {
        assert f[..k + 1][k] == next[..k + 1][k];
        assert next[k] == f[k];
        assert k < |open| && next[..k + 1] == open[..k + 1];
      }
    }
  }

  lemma TopKept(f: seq<nat>, open: seq<nat>, i: nat)
    requires KeptOrNew(f, open, i) && f != [] && f[|f| - 1] < i
    ensures |f| <= |open| && f == open[..|f|]
  {
    assert f[..|f| - 1 + 1] == f;
  }

  // Scanning on from just inside the innermost form that ends up open starts
  // with the same forms open as at the end.
  lemma {:induction false} InnermostOpened(text: string, limit: nat, i: nat, open: seq<nat>)
    requires i <= limit <= |text| && forall k | 0 <= k < |open| :: open[k] < i
    requires var f := OpenFrom(text, limit, i, open); f != [] && f[|f| - 1] >= i
    ensures var f := OpenFrom(text, limit, i, open);
            var p := f[|f| - 1];
            p < limit && text[p] == '(' && OpenFrom(text, limit, p + 1, f) == f
    decreases limit - i
  {
    var next, j := PushPop(text, i, open), Jump(text, i, limit);
    var f := OpenFrom(text, limit, j, next);
    OpenStep(text, limit, i, open);
    LaterAbove(text, limit, j, next);
    if f[|f| - 1] < j {
      PushedHere(text, i, open, f, j);
    } else {
      InnermostOpened(text, limit, j, next);
    }
  }

  lemma {:induction false} PushedHere(text: string, i: nat, open: seq<nat>, f: seq<nat>, j: nat)
    requires i < |text| && forall k | 0 <= k < |open| :: open[k] < i
    requires KeptOrNew(f, PushPop(text, i, open), j) && f != [] && i <= f[|f| - 1] < j
    ensures text[i] == '(' && f == open + [i]
  {
    TopKept(f, PushPop(text, i, open), j);
    assert f[|f| - 1] == PushPop(text, i, open)[|f| - 1];
  }

  // At `e` a paren closes, and scanning on past it with `base` open ends so.
  ghost predicate ClosesAt(text: string, limit: nat, e: nat, base: seq<nat>)
    requires limit <= |text|
  {
    e < limit && text[e] == ')' && OpenFrom(text, limit, e + 1, base) == base
  }

  lemma {:induction false} FormEndStep(text: string, limit: nat, j: nat, depth: int)
    requires j < limit <= |text|
    ensures text[j] == '(' ==> FormEnd(text, limit, j, depth) == FormEnd(text, limit, j + 1, depth + 1)
    ensures text[j] == ')' && depth == 1 ==> FormEnd(text, limit, j, depth) == j
    ensures text[j] == ')' && depth != 1 ==> FormEnd(text, limit, j, depth) == FormEnd(text, limit, j + 1, depth - 1)
    ensures text[j] != '(' && text[j] != ')' ==>
              FormEnd(text, limit, j, depth) == FormEnd(text, limit, Jump(text, j, limit), depth)
  {
  }

  // A form opened above `base`, with `base` open at the end, is closed: the skip
  // ends on the paren that closes it and leaves `base` open.
  lemma {:induction false} FormCloses(text: string, limit: nat, j: nat, base: seq<nat>, inner: seq<nat>)
    requires 0 < limit <= |text| && j <= limit && inner != []
    requires OpenFrom(text, limit, j, base + inner) == base
    ensures ClosesAt(text, limit, FormEnd(text, limit, j, |inner|), base)
    ensures j <= FormEnd(text, limit, j, |inner|)
    decreases limit - j, 1
  {
    Longer(base, inner);
    if j < limit {
      OpenStep(text, limit, j, base + inner);
      FormEndStep(text, limit, j, |inner|);
      if text[j] == '(' {
        assert base + inner + [j] == base + (inner + [j]);
        FormCloses(text, limit, j + 1, base, inner + [j]);
      } else if text[j] == ')' {
        FormClosesOne(text, limit, j, base, inner);
      } else {
        FormCloses(text, limit, Jump(text, j, limit), base, inner);
      }
    }
  }

  lemma {:induction false} FormClosesOne(text: string, limit: nat, j: nat, base: seq<nat>, inner: seq<nat>)
    requires j < limit <= |text| && inner != [] && text[j] == ')'
    requires OpenFrom(text, limit, j + 1, Pop(base + inner)) == base
    ensures ClosesAt(text, limit, FormEnd(text, limit, j, |inner|), base)
    ensures j <= FormEnd(text, limit, j, |inner|)
    decreases limit - j, 0
  {
    PopAbove(base, inner);
    FormEndStep(text, limit, j, |inner|);
    if |inner| == 1 {
      assert base + inner[..0] == base;
    } else {
      FormCloses(text, limit, j + 1, base, inner[..|inner| - 1]);
    }
  }

  lemma Longer<T>(base: seq<T>, inner: seq<T>)
    requires inner != []
    ensures base + inner != base
  {
    assert |base + inner| > |base|;
  }

  lemma PopAbove<T>(base: seq<T>, inner: seq<T>)
    requires inner != []
    ensures Pop(base + inner) == base + inner[..|inner| - 1]
  {
  }

  // Reading a form's elements on from `i`, every nested form's skip finds a
  // closing paren before `limit`, and no other closing paren is met.
  predicate NestedFormsClose(text: string, limit: nat, i: nat)
    requires i <= limit <= |text|
    decreases limit - i
  {
    if i == limit then true
    else if text[i] == ')' then false
    else if text[i] == '(' then
      var e := FormEnd(text, limit, i, 0);
      i < e && text[e] == ')' && NestedFormsClose(text, limit, e + 1)
    else NestedFormsClose(text, limit, Jump(text, i, limit))
  }

  lemma {:induction false} NoStrayClose(text: string, limit: nat, i: nat, open: seq<nat>)
    requires i < limit <= |text| && open != [] && open[|open| - 1] < i
    requires OpenFrom(text, limit, i, open) == open
    ensures text[i] != ')'
  {
    if text[i] == ')' {
      LaterAbove(text, limit, i + 1, Pop(open));
    }
  }

  lemma {:induction false} NestedFormsCloseFrom(text: string, limit: nat, i: nat, open: seq<nat>)
    requires i <= limit <= |text| && open != [] && open[|open| - 1] < i
    requires OpenFrom(text, limit, i, open) == open
    ensures NestedFormsClose(text, limit, i)
    decreases limit - i
  {
    if i < limit {
      NoStrayClose(text, limit, i, open);
      if text[i] == '(' {
        assert FormEnd(text, limit, i, 0) == FormEnd(text, limit, i + 1, |[i]|);
        FormCloses(text, limit, i + 1, open, [i]);
        NestedFormsCloseFrom(text, limit, FormEnd(text, limit, i, 0) + 1, open);
      } else {
        NestedFormsCloseFrom(text, limit, Jump(text, i, limit), open);
      }
    }
  }

  // Inside the innermost form open at the cursor every nested form is complete.
  lemma InnermostFormReads(text: string, cursor: nat)
    requires cursor <= |text|
    requires OpenFrom(text, cursor, 0, []) != []
    ensures var open := OpenFrom(text, cursor, 0, []);
            var start := open[|open| - 1] + 1;
            && start <= cursor && text[start - 1] == '('
            && NestedFormsClose(text, cursor, start)
  {
    var open := OpenFrom(text, cursor, 0, []);
    InnermostOpened(text, cursor, 0, []);
    NestedFormsCloseFrom(text, cursor, open[|open| - 1] + 1, open);
  }

  // One element of a form: text[start..end], where `end` is the limit for an
  // element the limit is in or right after.
  datatype Element = Element(start: nat, end: nat)

  // The index past the string, nested form or single character at `i`.
  function Part(text: string, i: nat, limit: nat): (r: nat)
    requires i < limit <= |text|
    ensures i < r <= limit
  {
    if text[i] == '"' then StringEnd(text, i + 1, limit) + 1
    else if text[i] == '(' then FormEnd(text, limit, i, 0) + 1
    else i + 1
  }

  function ElementEnd(text: string, i: nat, limit: nat): (r: nat)
    requires i <= limit <= |text|
    ensures i <= r <= limit
    ensures i < limit && !IsSpace(text[i]) && text[i] != ';' ==> i < r
    decreases limit - i
  {
    if i == limit || IsSpace(text[i]) || text[i] == ';' then i
    else ElementEnd(text, Part(text, i, limit), limit)
  }

  predicate Placed(els: seq<Element>, i: nat, limit: nat) {
    forall k | 0 <= k < |els| :: i <= els[k].start < els[k].end <= limit
  }

  // The elements from `i` on: runs of parts between spaces and comments.
  function Elements(text: string, i: nat, limit: nat): (r: seq<Element>)
    requires i <= limit <= |text|
    ensures Placed(r, i, limit)
    decreases limit - i
  {
    if i == limit then []
    else if IsSpace(text[i]) then Elements(text, i + 1, limit)
    else if text[i] == ';' then Elements(text, LineEnd(text, i, limit) + 1, limit)
    else
      var e := ElementEnd(text, i, limit);
      [Element(i, e)] + Elements(text, e, limit)
  }

  datatype CallInfo = CallInfo(head: string, argIndex: int, args: seq<string>)

  // The call whose elements up to `cursor` are `els`: no call without a head, or
  // with a form or a string for one. An argument still being typed is counted
  // but not listed.
  function CallOf(text: string, cursor: nat, els: seq<Element>): (r: Option<CallInfo>)
    requires cursor <= |text| && Placed(els, 0, cursor)
    ensures r.Some? ==> |r.value.args| == if r.value.argIndex < 0 then 0 else r.value.argIndex
  {
    if els == [] || text[els[0].start] == '(' || text[els[0].start] == '"' then None
    else
      var done := if els[|els| - 1].end == cursor then |els| - 1 else |els|;
      Some(CallInfo(text[els[0].start..els[0].end], done - 1,
                    seq(if done == 0 then 0 else done - 1,
                        k requires 0 <= k < (if done == 0 then 0 else done - 1) =>
                          text[els[k + 1].start..els[k + 1].end])))
  }

  // What the source reports for the cursor: nothing outside every form.
  function CallAt(text: string, cursor: nat): Option<CallInfo>
    requires cursor <= |text|
  {
    var open := OpenFrom(text, cursor, 0, []);
    if open == [] || open[|open| - 1] >= cursor then None
    else CallIn(text, cursor, open[|open| - 1] + 1)
  }

  function CallIn(text: string, cursor: nat, start: nat): Option<CallInfo>
    requires start <= cursor <= |text|
  {
    CallOf(text, cursor, Elements(text, start, cursor))
  }

  // What has been read of the elements `els` at index `i`: `count` of them, the
  // last one still open when `inElement`.
  ghost predicate ReadSoFar(text: string, cursor: nat, i: nat, els: seq<Element>, count: nat, inElement: bool)
    requires i <= cursor <= |text|
  {
    && count <= |els|
    && (inElement ==>
          && count > 0
          && els[count - 1].end == ElementEnd(text, i, cursor)
          && els[count..] == Elements(text, ElementEnd(text, i, cursor), cursor))
    && (!inElement ==> els[count..] == Elements(text, i, cursor))
  }

  // The texts of the arguments among the first `done` elements.
  function ArgTexts(text: string, els: seq<Element>, done: nat): seq<string>
    requires done <= |els| && Placed(els, 0, |text|)
  {
    if done <= 1 then []
    else ArgTexts(text, els, done - 1) + [text[els[done - 1].start..els[done - 1].end]]
  }

  lemma {:induction false} ArgTextsAre(text: string, els: seq<Element>, done: nat)
    requires done <= |els| && Placed(els, 0, |text|)
    ensures var a := ArgTexts(text, els, done);
            |a| == (if done == 0 then 0 else done - 1)
            && forall k | 0 <= k < |a| :: a[k] == text[els[k + 1].start..els[k + 1].end]
  {
    if done > 1 { ArgTextsAre(text, els, done - 1); }
  }

  lemma {:induction false} EndsAtBlank(text: string, cursor: nat, i: nat, els: seq<Element>, count: nat)
    requires i < cursor <= |text| && (IsSpace(text[i]) || text[i] == ';')
    requires ReadSoFar(text, cursor, i, els, count, true)
    ensures els[count - 1].end == i && ReadSoFar(text, cursor, i, els, count, false)
  {
  }

  lemma {:induction false} SkipsBlank(text: string, cursor: nat, i: nat, els: seq<Element>, count: nat)
    requires i < cursor <= |text| && (IsSpace(text[i]) || text[i] == ';')
    requires ReadSoFar(text, cursor, i, els, count, false)
    ensures ReadSoFar(text, cursor, if text[i] == ';' then LineEnd(text, i, cursor) + 1 else i + 1, els, count, false)
  {
  }

  lemma {:induction false} BeginsElement(text: string, cursor: nat, i: nat, els: seq<Element>, count: nat)
    requires i < cursor <= |text| && !IsSpace(text[i]) && text[i] != ';'
    requires ReadSoFar(text, cursor, i, els, count, false)
    ensures count < |els| && els[count].start == i && ReadSoFar(text, cursor, i, els, count + 1, true)
  {
    var e := ElementEnd(text, i, cursor);
    assert els[count..] == [Element(i, e)] + Elements(text, e, cursor);
    assert els[count + 1..] == els[count..][1..];
    assert els[count] == els[count..][0];
  }

  lemma {:induction false} PassesPart(text: string, cursor: nat, i: nat, els: seq<Element>, count: nat)
    requires i < cursor <= |text| && !IsSpace(text[i]) && text[i] != ';'
    requires ReadSoFar(text, cursor, i, els, count, true)
    ensures ReadSoFar(text, cursor, Part(text, i, cursor), els, count, true)
  {
  }

  lemma {:induction false} ReadAll(text: string, cursor: nat, els: seq<Element>, count: nat, inElement: bool)
    requires cursor <= |text| && ReadSoFar(text, cursor, cursor, els, count, inElement)
    ensures count == |els| && (inElement ==> els[count - 1].end == cursor)
  {
  }

  lemma {:induction false} CallOfIs(text: string, cursor: nat, els: seq<Element>, inElement: bool)
    requires cursor <= |text| && els != [] && Placed(els, 0, cursor)
    requires text[els[0].start] != '(' && text[els[0].start] != '"'
    requires inElement <==> els[|els| - 1].end == cursor
    ensures var done := if inElement then |els| - 1 else |els|;
            CallOf(text, cursor, els)
            == Some(CallInfo(text[els[0].start..els[0].end], done - 1, ArgTexts(text, els, done)))
  {
    var done := if inElement then |els| - 1 else |els|;
    ArgTextsAre(text, els, done);
    assert CallOf(text, cursor, els).value.args == ArgTexts(text, els, done);
  }

  // The last index of the string, form or character at `i`.
  method PartEnd(text: string, i: nat, cursor: nat) returns (r: nat)
    requires i < cursor <= |text|
    ensures r + 1 == Part(text, i, cursor)
  {
    r := i;
    if text[i] == '"' {
      r := FindStringEnd(text, i, cursor);
    } else if text[i] == '(' {
      r := FindFormEnd(text, i, cursor);
    }
  }

  // The element count: how many elements were met, whether the last is still
  // open and where it started, the head's bounds, and the arguments ended so far.
  datatype Count = Count(met: nat, inElement: bool, elStart: nat, headStart: nat, headEnd: nat, args: seq<string>)
  {
    function Done(): nat {
      if inElement && met > 0 then met - 1 else met
    }
  }

  ghost predicate Counted(text: string, cursor: nat, i: nat, els: seq<Element>, c: Count)
    requires i <= cursor <= |text|
  {
    && Placed(els, 0, cursor)
    && ReadSoFar(text, cursor, i, els, c.met, c.inElement)
    && (c.inElement ==> c.elStart == els[c.met - 1].start < i)
    && (c.met > 0 ==> c.headStart == els[0].start && text[c.headStart] != '(' && text[c.headStart] != '"')
    && (c.met == 1 && c.inElement ==> c.headEnd == i)
    && (c.met > 1 || (c.met == 1 && !c.inElement) ==> c.headEnd == els[0].end)
    && (!c.inElement && c.met > 0 ==> els[c.met - 1].end < cursor)
    && c.args == ArgTexts(text, els, c.Done())
  }

  // The element being read, if any, ends at `i`; then past the space or comment.
  method PassBlank(text: string, cursor: nat, i: nat, ghost els: seq<Element>, c: Count) returns (j: nat, d: Count)
    requires i < cursor <= |text| && (IsSpace(text[i]) || text[i] == ';')
    requires Counted(text, cursor, i, els, c)
    ensures i < j <= cursor && Counted(text, cursor, j, els, d)
  {
    d := c;
    if c.inElement {
      EndsAtBlank(text, cursor, i, els, c.met);
      d := c.(inElement := false, args := if c.met > 1 then c.args + [text[c.elStart..i]] else c.args);
    }
    SkipsBlank(text, cursor, i, els, d.met);
    j := (if text[i] == ';' then LineEnd(text, i, cursor) else i) + 1;
  }

  // One more string, form or character of the element, which starts here unless
  // one is open. A head that is a form or a string is no head.
  method PassPart(text: string, cursor: nat, i: nat, ghost els: seq<Element>, c: Count) returns (j: nat, d: Option<Count>)
    requires i < cursor <= |text| && !IsSpace(text[i]) && text[i] != ';'
    requires Counted(text, cursor, i, els, c)
    ensures d.Some? ==> i < j <= cursor && Counted(text, cursor, j, els, d.value)
    ensures d.None? ==> els != [] && CallOf(text, cursor, els) == None
  {
    j := PartEnd(text, i, cursor);
    j := j + 1;
    if c.inElement {
      PassesPart(text, cursor, i, els, c.met);
      d := Some(c.(headEnd := if c.met == 1 then j else c.headEnd));
    } else {
      BeginsElement(text, cursor, i, els, c.met);
      PassesPart(text, cursor, i, els, c.met + 1);
      if c.met > 0 {
        d := Some(c.(met := c.met + 1, inElement := true, elStart := i));
      } else if text[i] == '(' || text[i] == '"' {
        d := None;
      } else {
        d := Some(Count(1, true, i, i, j, c.args));
      }
    }
  }

  lemma {:induction false} CountedNone(text: string, cursor: nat, start: nat)
    requires start <= cursor <= |text|
    ensures Counted(text, cursor, start, Elements(text, start, cursor), Count(0, false, 0, 0, 0, []))
  {
  }

  lemma {:induction false} CountedAll(text: string, cursor: nat, els: seq<Element>, c: Count)
    requires cursor <= |text| && Counted(text, cursor, cursor, els, c)
    ensures c.met == 0 ==> CallOf(text, cursor, els) == None
    ensures c.met > 0 ==>
              && c.headStart <= c.headEnd <= |text|
              && CallOf(text, cursor, els)
                 == Some(CallInfo(text[c.headStart..c.headEnd], c.Done() - 1, c.args))
  {
    ReadAll(text, cursor, els, c.met, c.inElement);
    if c.met > 0 { CallOfIs(text, cursor, els, c.inElement); }
  }

  method CallAtCursor(text: string, cursor: nat) returns (r: Option<CallInfo>)
    requires cursor <= |text|
    ensures r == CallAt(text, cursor)
  {
    var open := OpenForms(text, cursor);
    if |open| == 0 { return None; }
    InnermostOpened(text, cursor, 0, []);
    r := ReadCall(text, cursor, open[|open| - 1] + 1);
  }

  // Counts the form's elements up to the cursor.
  method ReadCall(text: string, cursor: nat, start: nat) returns (r: Option<CallInfo>)
    requires start <= cursor <= |text|
    ensures r == CallIn(text, cursor, start)
  {
    ghost var els := Elements(text, start, cursor);
    var c := Count(0, false, 0, 0, 0, []);
    CountedNone(text, cursor, start);
    var i := start;
    while i < cursor
      invariant start <= i <= cursor
      invariant Counted(text, cursor, i, els, c)
      decreases cursor - i
    {
      if IsSpace(text[i]) || text[i] == ';' {
        i, c := PassBlank(text, cursor, i, els, c);
      } else {
        var j, d := PassPart(text, cursor, i, els, c);
        if d.None? { return None; }
        i, c := j, d.value;
      }
    }
    CountedAll(text, cursor, els, c);
    if c.met == 0 { return None; }
    r := Some(CallInfo(text[c.headStart..c.headEnd], c.Done() - 1, c.args));
  }

  method OpenForms(text: string, cursor: nat) returns (open: seq<nat>)
    requires cursor <= |text|
    ensures open == OpenFrom(text, cursor, 0, [])
  {
    open := [];
    var i := 0;
    while i < cursor
      invariant i <= cursor
      invariant OpenFrom(text, cursor, i, open) == OpenFrom(text, cursor, 0, [])
      decreases cursor - i
    {
      OpenStep(text, cursor, i, open);
      var c := text[i];
      if c == '"' {
        i := FindStringEnd(text, i, cursor);
      } else if c == ';' {
        i := LineEnd(text, i, cursor);
      } else if c == '(' {
        open := open + [i];
      } else if c == ')' {
        open := Pop(open);
      }
      i := i + 1;
    }
  }
}
