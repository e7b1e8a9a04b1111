// What the highlighter makes of each place of a text (ui-assets/repl-syntax.js,
// rainbowHighlight), measured by what strings, comments and open brackets are in
// LispText: every piece it writes is one whole string, one whole comment, one
// bracket in the colour of its depth, one head, one plist key, or text that is
// none of these.
module RainbowPlaces {
  import opened Html
  import opened LispText
  import opened Rainbow
  import WhiteSpace

  // ------------------------------------------------------------ places in a text

  // A character outside strings and comments that is no bracket.
  ghost predicate TextChar(src: string, i: nat) {
    && i < |src| && CodeAt(src, i)
    && src[i] != '"' && src[i] != ';' && !IsOpen(src[i]) && !IsClose(src[i])
  }

  ghost predicate AllText(src: string, i: nat, j: nat) {
    i <= j <= |src| && forall k | i <= k < j :: TextChar(src, k)
  }

  // A string from its opening quote at `i` up to `j`: past its closing quote, or
  // the end of the text.
  ghost predicate WholeString(src: string, i: nat, j: nat) {
    && i < j <= |src| && CodeAt(src, i)
    && (|| (j == |src| && OpenString(src, i, j))
        || (OpenString(src, i, j - 1) && ClosesString(src, i, j - 1)))
  }

  // A comment likewise, up to and with its newline.
  ghost predicate WholeComment(src: string, i: nat, j: nat) {
    && i < j <= |src| && CodeAt(src, i)
    && (|| (j == |src| && OpenComment(src, i, j))
        || (OpenComment(src, i, j - 1) && src[j - 1] == '\n'))
  }

  // No bracket, and if text then white space.
  ghost predicate PassedOver(src: string, k: nat, space: Spaces) {
    !CodeBracket(src, k) && (TextChar(src, k) ==> space(src[k]))
  }

  ghost predicate AllPassed(src: string, i: nat, j: nat, space: Spaces) {
    forall k | i <= k < j :: PassedOver(src, k, space)
  }

  // A list has been opened and its head has not been met.
  ghost predicate Pending(src: string, i: nat, space: Spaces) {
    exists b :: 0 <= b < i && CodeBracket(src, b) && IsOpen(src[b]) && AllPassed(src, b + 1, i, space)
  }

  // The head of a list, which is no keyword.
  ghost predicate HeadStart(src: string, i: nat, space: Spaces) {
    TextChar(src, i) && !space(src[i]) && src[i] != ':' && Pending(src, i, space)
  }

  ghost predicate HeadEnds(src: string, i: nat, j: nat, space: Spaces) {
    && AllText(src, i, j) && (forall k | i <= k < j :: !space(src[k]))
    && (j < |src| && TextChar(src, j) ==> space(src[j]))
  }

  ghost predicate KeyStart(src: string, i: nat, space: Spaces) { TextChar(src, i) && KeyAt(src, i, space) }

  ghost predicate PlainChar(src: string, i: nat, space: Spaces) {
    TextChar(src, i) && !HeadStart(src, i, space) && !KeyStart(src, i, space)
  }

  // A piece is what there is to be seen at `i`.
  ghost predicate Fits(src: string, p: Piece, i: nat, space: Spaces) {
    match p
    case Plain(text) => forall k | i <= k < i + |text| :: PlainChar(src, k, space)
    case Span(c, text) => text != "" && SpanFits(src, c, text, i, i + |text|, space)
  }

  ghost predicate SpanFits(src: string, c: Class, text: string, i: nat, j: nat, space: Spaces) {
    match c
    case Quoted => WholeString(src, i, j)
    case Comment => WholeComment(src, i, j)
    case PlistKey => KeyStart(src, i, space) && j == WordEnd(src, i + 1, space)
    case SpecialForm => HeadStart(src, i, space) && HeadEnds(src, i, j, space) && text in SPECIAL_FORMS
    case FunctionHead => HeadStart(src, i, space) && HeadEnds(src, i, j, space) && text !in SPECIAL_FORMS
    case Paren(colour) =>
      && j == i + 1 && CodeBracket(src, i)
      && (if IsOpen(src[i]) then colour == |OpenAt(src, i)| % RAINBOW_DEPTHS
          else OpenAt(src, i) != [] && colour == (|OpenAt(src, i)| - 1) % RAINBOW_DEPTHS)
    case Mismatch => j == i + 1 && CodeBracket(src, i) && IsClose(src[i]) && OpenAt(src, i) == []
  }

  ghost function Fitting(src: string, space: Spaces): (Piece, nat) -> bool {
    (p: Piece, i: nat) => Fits(src, p, i, space)
  }

  // Of pieces one after the other from `at` on, each is as `f` says where it stands.
  ghost predicate EachAt(ps: seq<Piece>, at: nat, f: (Piece, nat) -> bool) {
    forall k | 0 <= k < |ps| :: StandsAt(ps, at, k, f)
  }

  ghost predicate StandsAt(ps: seq<Piece>, at: nat, k: nat, f: (Piece, nat) -> bool)
    requires k < |ps|
  {
    f(ps[k], at + Offset(ps, k))
  }

  ghost predicate AllFit(src: string, ps: seq<Piece>, at: nat, space: Spaces) {
    EachAt(ps, at, Fitting(src, space))
  }

  // A newline is white space and a colon is not.
  predicate Sane(space: Spaces) { space('\n') && !space(':') }

  // As the `\s` of the source has it.
  lemma WhiteSpaceIsSane()
    ensures Sane(WhiteSpace.IsSpace)
  {
  }

  // ------------------------------------------------------------------- joining

  lemma EachJoins(a: seq<Piece>, b: seq<Piece>, at: nat, f: (Piece, nat) -> bool)
    requires EachAt(a, at, f) && EachAt(b, at + |Text(a)|, f)
    ensures EachAt(a + b, at, f)
  {
    forall k | 0 <= k < |a + b| ensures StandsAt(a + b, at, k, f) {
      if k < |a| {
        assert StandsAt(a, at, k, f);
        OffsetLeft(a, b, k);
      } else {
        assert StandsAt(b, at + |Text(a)|, k - |a|, f);
        OffsetRight(a, b, k - |a|);
        assert (a + b)[k] == b[k - |a|];
      }
    }
  }

  lemma FitJoin(src: string, a: seq<Piece>, b: seq<Piece>, at: nat, space: Spaces)
    requires AllFit(src, a, at, space) && AllFit(src, b, at + |Text(a)|, space)
    ensures AllFit(src, a + b, at, space)
  {
    EachJoins(a, b, at, Fitting(src, space));
  }

  lemma FitOne(src: string, p: Piece, at: nat, space: Spaces)
    requires Fits(src, p, at, space)
    ensures AllFit(src, [p], at, space) && |Text([p])| == |p.text|
  {
    OneText(p);
    assert StandsAt([p], at, 0, Fitting(src, space));
  }

  lemma FitTwo(src: string, p: Piece, q: Piece, at: nat, space: Spaces)
    requires Fits(src, p, at, space) && Fits(src, q, at + |p.text|, space)
    ensures AllFit(src, [p, q], at, space) && |Text([p, q])| == |p.text| + |q.text|
  {
    FitOne(src, p, at, space);
    FitOne(src, q, at + |p.text|, space);
    FitJoin(src, [p], [q], at, space);
    TwoText(p, q);
    assert [p] + [q] == [p, q];
  }

  // --------------------------------------------------------------- plist keys

  // A stretch of text as the highlighter gathers it: it ends where text does, and
  // no key that it begins with is the rest of a word.
  ghost predicate Segment(src: string, at: nat, sub: string, space: Spaces) {
    && at + |sub| <= |src| && sub == src[at..at + |sub|]
    && AllText(src, at, at + |sub|)
    && (at + |sub| < |src| ==> !TextChar(src, at + |sub|) && !IsWordChar(src[at + |sub|], space))
    && BeginsWord(src, at, space)
  }

  ghost predicate BeginsWord(src: string, at: nat, space: Spaces) {
    0 < at <= |src| && IsWordChar(src[at - 1], space) ==> at == |src| || src[at] != ':'
  }

  lemma {:induction false} WordEndMoves(src: string, at: nat, sub: string, j: nat, space: Spaces)
    requires Segment(src, at, sub, space) && j <= |sub|
    ensures at + WordEnd(sub, j, space) == WordEnd(src, at + j, space)
    decreases |sub| - j
  {
    if j < |sub| && IsWordChar(sub[j], space) { WordEndMoves(src, at, sub, j + 1, space); }
  }

  lemma KeyMoves(src: string, at: nat, sub: string, k: nat, space: Spaces)
    requires Segment(src, at, sub, space) && k < |sub|
    ensures KeyAt(sub, k, space) <==> KeyStart(src, at + k, space)
  {
    assert TextChar(src, at + k);
    if k > 0 { assert sub[k - 1] == src[at + k - 1]; }
  }

  // The keys of a stretch that no head begins in.
  lemma {:induction false} KeysFit(src: string, at: nat, sub: string, last: nat, i: nat, space: Spaces)
    requires Segment(src, at, sub, space) && last <= i <= |sub|
    requires forall k | last <= k < i :: !KeyAt(sub, k, space)
    requires forall k | at <= k < at + |sub| :: !HeadStart(src, k, space)
    ensures AllFit(src, MarkKeys(sub, last, i, space), at + last, space)
    decreases |sub| - i
  {
    if i == |sub| {
      NoKeysFit(src, at, sub, last, i, space);
      FitOne(src, Plain(sub[last..]), at + last, space);
    } else if KeyAt(sub, i, space) {
      var end := WordEnd(sub, i + 1, space);
      KeysFit(src, at, sub, end, end, space);
      KeyFits(src, at, sub, last, i, end, space);
      FitJoin(src, [Plain(sub[last..i]), Span(PlistKey, sub[i..end])], MarkKeys(sub, end, end, space), at + last, space);
    } else {
      KeysFit(src, at, sub, last, i + 1, space);
    }
  }

  lemma NoKeysFit(src: string, at: nat, sub: string, last: nat, i: nat, space: Spaces)
    requires Segment(src, at, sub, space) && last <= i <= |sub|
    requires forall k | last <= k < i :: !KeyAt(sub, k, space)
    requires forall k | at <= k < at + |sub| :: !HeadStart(src, k, space)
    ensures Fits(src, Plain(sub[last..i]), at + last, space)
  {
    forall k | at + last <= k < at + i ensures PlainChar(src, k, space) { KeyMoves(src, at, sub, k - at, space); }
  }

  lemma KeyFits(src: string, at: nat, sub: string, last: nat, i: nat, end: nat, space: Spaces)
    requires Segment(src, at, sub, space) && last <= i < |sub| && KeyAt(sub, i, space) && end == WordEnd(sub, i + 1, space)
    requires forall k | last <= k < i :: !KeyAt(sub, k, space)
    requires forall k | at <= k < at + |sub| :: !HeadStart(src, k, space)
    ensures var two := [Plain(sub[last..i]), Span(PlistKey, sub[i..end])];
            AllFit(src, two, at + last, space) && at + last + |Text(two)| == at + end
  {
    NoKeysFit(src, at, sub, last, i, space);
    KeySpanFits(src, at, sub, i, end, space);
    FitTwo(src, Plain(sub[last..i]), Span(PlistKey, sub[i..end]), at + last, space);
  }

  lemma KeySpanFits(src: string, at: nat, sub: string, i: nat, end: nat, space: Spaces)
    requires Segment(src, at, sub, space) && i < |sub| && KeyAt(sub, i, space) && end == WordEnd(sub, i + 1, space)
    ensures Fits(src, Span(PlistKey, sub[i..end]), at + i, space)
  {
    KeyMoves(src, at, sub, i, space);
    WordEndMoves(src, at, sub, i + 1, space);
  }

  // ------------------------------------------------------------------- pending

  // Over a stretch without brackets a head stays pending while only white space is
  // met, and none becomes pending.
  lemma PendingOver(src: string, i: nat, j: nat, space: Spaces)
    requires i <= j && forall k | i <= k < j :: !CodeBracket(src, k)
    ensures Pending(src, j, space) <==> Pending(src, i, space) && AllPassed(src, i, j, space)
  {
    if Pending(src, j, space) {
      var b :| 0 <= b < j && CodeBracket(src, b) && IsOpen(src[b]) && AllPassed(src, b + 1, j, space);
      assert b < i;
    }
    if Pending(src, i, space) && AllPassed(src, i, j, space) {
      var b :| 0 <= b < i && CodeBracket(src, b) && IsOpen(src[b]) && AllPassed(src, b + 1, i, space);
      assert AllPassed(src, b + 1, j, space);
    }
  }

  lemma TextIsNoBracket(src: string, i: nat, j: nat)
    requires AllText(src, i, j)
    ensures forall k | i <= k < j :: !CodeBracket(src, k)
  {
    forall k | i <= k < j ensures !CodeBracket(src, k) { assert TextChar(src, k); }
  }

  // In a stretch of text nothing is pending past the first character that is no
  // white space.
  lemma NotPastText(src: string, at: nat, w: nat, n: nat, k: nat, space: Spaces)
    requires AllText(src, at, n) && at <= w < k <= n && !space(src[w])
    ensures !Pending(src, k, space)
  {
    assert TextChar(src, w) && !PassedOver(src, w, space);
    TextIsNoBracket(src, at, n);
    PendingOver(src, at, k, space);
  }

  lemma {:induction false} SpaceEndIs(text: string, i: nat, space: Spaces, want: bool)
    requires i <= |text|
    ensures var j := SpaceEnd(text, i, space, want);
            (forall k | i <= k < j :: space(text[k]) == want) && (j < |text| ==> space(text[j]) != want)
    decreases |text| - i
  {
    if i < |text| && space(text[i]) == want { SpaceEndIs(text, i + 1, space, want); }
  }

  // ------------------------------------------------------------------- buffers

  // What a buffer of text is written as fits, and a head is pending after it just
  // when one was before and it is blank.
  lemma BufFits(src: string, at: nat, buf: string, n: nat, expecting: bool, space: Spaces)
    requires n == at + |buf| && Segment(src, at, buf, space) && Sane(space) && (expecting <==> Pending(src, at, space))
    ensures AllFit(src, BufPieces(buf, expecting, space), at, space)
    ensures Pending(src, n, space) <==> expecting && !HeadIn(buf, space)
  {
    var ws := SpaceEnd(buf, 0, space, true);
    SpaceEndIs(buf, 0, space, true);
    TextIsNoBracket(src, at, n);
    PendingOver(src, at, n, space);
    assert forall k | at <= k < n :: src[k] == buf[k - at];
    if !expecting {
      forall k | at <= k < n ensures !HeadStart(src, k, space) { PendingOver(src, at, k, space); }
      KeysFit(src, at, buf, 0, 0, space);
    } else if ws == |buf| {
      BlankFits(src, at, buf, |buf|, space);
      FitOne(src, Plain(buf), at, space);
      assert buf[..|buf|] == buf;
    } else {
      assert !PassedOver(src, at + ws, space);
      HeadFits(src, at, buf, ws, space);
    }
  }

  lemma BlankFits(src: string, at: nat, buf: string, ws: nat, space: Spaces)
    requires Segment(src, at, buf, space) && Sane(space) && ws <= |buf|
    requires forall k | 0 <= k < ws :: space(buf[k])
    ensures Fits(src, Plain(buf[..ws]), at, space)
  {
    forall k | at <= k < at + ws ensures PlainChar(src, k, space) {
      assert TextChar(src, k) && src[k] == buf[k - at] && space(buf[k - at]);
    }
  }

  lemma HeadFits(src: string, at: nat, buf: string, ws: nat, space: Spaces)
    requires Segment(src, at, buf, space) && Sane(space) && Pending(src, at, space)
    requires ws < |buf| && !space(buf[ws]) && forall k | 0 <= k < ws :: space(buf[k])
    ensures AllFit(src, HeadPieces(buf, ws, space), at, space)
  {
    var end := SpaceEnd(buf, ws, space, false);
    SpaceEndIs(buf, ws, space, false);
    BlankFits(src, at, buf, ws, space);
    if buf[ws] == ':' {
      FitOne(src, Plain(buf[..ws]), at, space);
      RestFits(src, at, buf, ws, ws, space);
      FitJoin(src, [Plain(buf[..ws])], MarkKeys(buf[ws..], 0, 0, space), at, space);
    } else {
      CallHeadFits(src, at, buf, ws, end, space);
    }
  }

  lemma CallHeadFits(src: string, at: nat, buf: string, ws: nat, end: nat, space: Spaces)
    requires Segment(src, at, buf, space) && Sane(space) && Pending(src, at, space)
    requires ws < end <= |buf| && buf[ws] != ':' && Fits(src, Plain(buf[..ws]), at, space)
    requires (forall k | 0 <= k < ws :: space(buf[k]))
    requires (forall k | ws <= k < end :: !space(buf[k])) && (end < |buf| ==> space(buf[end]))
    ensures AllFit(src, [Plain(buf[..ws]), Span(HeadClass(buf[ws..end]), buf[ws..end])] + MarkKeys(buf[end..], 0, 0, space),
                   at, space)
  {
    var head := Span(HeadClass(buf[ws..end]), buf[ws..end]);
    HeadSpanFits(src, at, buf, ws, end, space);
    FitTwo(src, Plain(buf[..ws]), head, at, space);
    RestFits(src, at, buf, ws, end, space);
    FitJoin(src, [Plain(buf[..ws]), head], MarkKeys(buf[end..], 0, 0, space), at, space);
  }

  lemma HeadSpanFits(src: string, at: nat, buf: string, ws: nat, end: nat, space: Spaces)
    requires Segment(src, at, buf, space) && Pending(src, at, space)
    requires ws < end <= |buf| && buf[ws] != ':' && (forall k | 0 <= k < ws :: space(buf[k]))
    requires (forall k | ws <= k < end :: !space(buf[k])) && (end < |buf| ==> space(buf[end]))
    ensures Fits(src, Span(HeadClass(buf[ws..end]), buf[ws..end]), at + ws, space)
  {
    assert forall k | at <= k < at + |buf| :: src[k] == buf[k - at] && TextChar(src, k);
    TextIsNoBracket(src, at, at + |buf|);
    assert AllPassed(src, at, at + ws, space);
    PendingOver(src, at, at + ws, space);
    assert HeadStart(src, at + ws, space) && HeadEnds(src, at + ws, at + end, space);
  }

  // What follows the head, or begins with a keyword in its place.
  lemma RestFits(src: string, at: nat, buf: string, ws: nat, from: nat, space: Spaces)
    requires Segment(src, at, buf, space) && Sane(space) && ws <= from <= |buf| && ws < |buf| && !space(buf[ws])
    requires from == ws ==> buf[ws] == ':' && (ws > 0 ==> space(buf[ws - 1]))
    requires from > ws ==> from == |buf| || space(buf[from])
    ensures AllFit(src, MarkKeys(buf[from..], 0, 0, space), at + from, space)
  {
    var n := at + |buf|;
    RestIsSegment(src, at, buf, from, space);
    forall k | at + from <= k < n ensures !HeadStart(src, k, space) {
      if k > at + ws { NotPastText(src, at, at + ws, n, k, space); }
    }
    KeysFit(src, at + from, buf[from..], 0, 0, space);
  }

  lemma RestIsSegment(src: string, at: nat, buf: string, from: nat, space: Spaces)
    requires Segment(src, at, buf, space) && Sane(space) && from <= |buf|
    requires from == 0 || from == |buf| || buf[from] != ':' || space(buf[from - 1])
    ensures Segment(src, at + from, buf[from..], space)
  {
    var n := at + |buf|;
    assert forall k | at <= k < n :: src[k] == buf[k - at];
    assert buf[from..] == src[at + from..n];
    if from > 0 { assert src[at + from - 1] == buf[from - 1]; }
  }

  // ---------------------------------------------------------------- invariants

  // Where the highlighter is after `n` characters: what is written fits, and the
  // buffer is one stretch of text, or a string or comment from its beginning.
  ghost predicate Placed(src: string, n: nat, p: Paint, space: Spaces)
    requires n <= |src|
  {
    var at := |Text(p.pieces)|;
    && Text(p.pieces) + p.buf == src[..n]
    && AllFit(src, p.pieces, 0, space)
    && p.scan.depth == |OpenAt(src, n)|
    && (p.expectingHead <==> Pending(src, at, space))
    && ModeFits(src, at, n, p.scan.mode, space)
  }

  ghost predicate ModeFits(src: string, at: nat, n: nat, mode: Mode, space: Spaces)
    requires n <= |src|
  {
    match mode
    case Code => CodeAt(src, n) && AllText(src, at, n) && (0 < at ==> !IsWordChar(src[at - 1], space))
    case InComment => OpenComment(src, at, n) && CodeAt(src, at)
    case InString => OpenString(src, at, n) && CodeAt(src, at) && Backslashes(src, at + 1, n) % 2 == 0
    case Escaped => OpenString(src, at, n) && CodeAt(src, at) && Backslashes(src, at + 1, n) % 2 == 1
  }

  lemma BufferIs(src: string, n: nat, p: Paint, space: Spaces)
    requires n <= |src| && Placed(src, n, p, space)
    ensures var at := |Text(p.pieces)|;
            at + |p.buf| == n && p.buf == src[at..n] && Text(p.pieces) == src[..at]
  {
    var at := |Text(p.pieces)|;
    assert (Text(p.pieces) + p.buf)[at..] == p.buf && (Text(p.pieces) + p.buf)[..at] == Text(p.pieces);
  }

  // Text ends at `n`: the end of the source, or what is no text.
  ghost predicate TextEnds(src: string, n: nat) {
    n == |src| || (n < |src| && CodeAt(src, n) && (src[n] == '"' || src[n] == ';' || IsOpen(src[n]) || IsClose(src[n])))
  }

  lemma FlushTextPlaced(src: string, n: nat, p: Paint, space: Spaces)
    requires n <= |src| && Placed(src, n, p, space) && p.scan.mode == Code && Sane(space) && TextEnds(src, n)
    ensures var f := FlushText(p, space);
            && f.buf == "" && f.scan == p.scan && Text(f.pieces) == src[..n] && AllFit(src, f.pieces, 0, space)
            && (f.expectingHead <==> Pending(src, n, space))
  {
    var at := |Text(p.pieces)|;
    BufferIs(src, n, p, space);
    if p.buf == "" {
      assert at == n;
    } else {
      var more := BufPieces(p.buf, p.expectingHead, space);
      BufFits(src, at, p.buf, n, p.expectingHead, space);
      BufText(p.buf, p.expectingHead, space);
      BufferFlushed(src, at, n, p.pieces, p.buf, more, space);
    }
  }

  lemma BufferFlushed(src: string, at: nat, n: nat, pieces: seq<Piece>, buf: string, more: seq<Piece>, space: Spaces)
    requires n <= |src| && at == |Text(pieces)| && Text(pieces) + buf == src[..n]
    requires AllFit(src, pieces, 0, space) && AllFit(src, more, at, space) && Text(more) == buf
    ensures Text(pieces + more) == src[..n] && AllFit(src, pieces + more, 0, space)
  {
    FlushedText(pieces, more, buf, src, n);
    FitJoin(src, pieces, more, 0, space);
  }

  lemma FlushedText(pieces: seq<Piece>, more: seq<Piece>, buf: string, src: string, n: nat)
    requires n <= |src| && Text(pieces) + buf == src[..n] && Text(more) == buf
    ensures Text(pieces + more) == src[..n]
  {
    TextJoin(pieces, more);
  }

  // A string or comment written whole.
  lemma FlushAsPlaced(src: string, n: nat, p: Paint, c: Class, space: Spaces)
    requires n <= |src| && Text(p.pieces) + p.buf == src[..n] && AllFit(src, p.pieces, 0, space)
    requires var at := |Text(p.pieces)|; at < n && SpanFits(src, c, p.buf, at, n, space)
    ensures var f := FlushAs(p, c);
            f.buf == "" && Text(f.pieces) == src[..n] && AllFit(src, f.pieces, 0, space)
  {
    assert |p.buf| == n - |Text(p.pieces)|;
    FitOne(src, Span(c, p.buf), |Text(p.pieces)|, space);
    FitJoin(src, p.pieces, [Span(c, p.buf)], 0, space);
    OneText(Span(c, p.buf));
    TextJoin(p.pieces, [Span(c, p.buf)]);
  }

  // Over a string or a comment a pending head stays pending.
  lemma PendingPast(src: string, at: nat, n: nat, space: Spaces)
    requires WholeString(src, at, n) || WholeComment(src, at, n)
    ensures Pending(src, n, space) <==> Pending(src, at, space)
  {
    forall k | at <= k < n ensures !TextChar(src, k) && !CodeBracket(src, k) {
      if k > at {
        if WholeString(src, at, n) { InsideString(src, at, k); } else { InsideComment(src, at, k); }
      }
    }
    PendingOver(src, at, n, space);
  }

  // -------------------------------------------------------------------- a step

  lemma DepthNext(src: string, n: nat, s: Scan)
    requires n < |src| && s.depth == |OpenAt(src, n)| && (s.mode == Code <==> CodeAt(src, n))
    ensures ScanStep(s, src[n]).depth == |OpenAt(src, n + 1)|
  {
  }

  // A mode says what the place is.
  lemma ModeIs(src: string, at: nat, n: nat, mode: Mode, space: Spaces)
    requires n <= |src| && ModeFits(src, at, n, mode, space)
    ensures mode == Code <==> CodeAt(src, n)
  {
    if mode == InComment { InsideComment(src, at, n); }
    if mode == InString || mode == Escaped { InsideString(src, at, n); }
  }

  lemma StepPlaced(src: string, n: nat, p: Paint, space: Spaces)
    requires n < |src| && Placed(src, n, p, space) && Sane(space)
    ensures Placed(src, n + 1, Step(p, src[n], space), space)
  {
    ModeIs(src, |Text(p.pieces)|, n, p.scan.mode, space);
    DepthNext(src, n, p.scan);
    match p.scan.mode
    case Code => CodePlaced(src, n, p, space);
    case InComment => CommentPlaced(src, n, p, space);
    case _ => StringPlaced(src, n, p, space);
  }

  lemma CodePlaced(src: string, n: nat, p: Paint, space: Spaces)
    requires n < |src| && Placed(src, n, p, space) && Sane(space) && p.scan.mode == Code
    requires ScanStep(p.scan, src[n]).depth == |OpenAt(src, n + 1)|
    ensures Placed(src, n + 1, Step(p, src[n], space), space)
  {
    var c := src[n];
    AfterCode(src, n);
    if c == ';' || c == '"' {
      FlushTextPlaced(src, n, p, space);
      assert src[..n + 1] == src[..n] + [c];
    } else if IsOpen(c) || IsClose(c) {
      FlushTextPlaced(src, n, p, space);
      BracketPlaced(src, n, FlushText(p, space), space);
    } else {
      assert TextChar(src, n);
      assert Text(p.pieces) + (p.buf + [c]) == src[..n] + [c] == src[..n + 1];
    }
  }

  lemma BracketPlaced(src: string, n: nat, f: Paint, space: Spaces)
    requires n < |src| && CodeBracket(src, n) && f.scan.mode == Code && f.scan.depth == |OpenAt(src, n)|
    requires f.buf == "" && Text(f.pieces) == src[..n] && AllFit(src, f.pieces, 0, space)
    requires ScanStep(f.scan, src[n]).depth == |OpenAt(src, n + 1)|
    ensures Placed(src, n + 1,
                   f.(pieces := f.pieces + [Span(BracketClass(src[n], f.scan.depth), [src[n]])],
                      expectingHead := IsOpen(src[n]), scan := ScanStep(f.scan, src[n])), space)
  {
    var piece := Span(BracketClass(src[n], f.scan.depth), [src[n]]);
    AfterCode(src, n);
    BracketFits(src, n, f.scan.depth, space);
    FitOne(src, piece, n, space);
    FitJoin(src, f.pieces, [piece], 0, space);
    BracketWritten(f.pieces, piece, src, n);
    PendingAtBracket(src, n, space);
  }

  lemma BracketFits(src: string, n: nat, depth: nat, space: Spaces)
    requires CodeBracket(src, n) && depth == |OpenAt(src, n)|
    ensures Fits(src, Span(BracketClass(src[n], depth), [src[n]]), n, space)
  {
  }

  lemma BracketWritten(pieces: seq<Piece>, piece: Piece, src: string, n: nat)
    requires n < |src| && Text(pieces) == src[..n] && piece.text == [src[n]]
    ensures Text(pieces + [piece]) + "" == src[..n + 1] && |Text(pieces + [piece])| == n + 1
  {
    OneText(piece);
    TextJoin(pieces, [piece]);
    NextChar(src, n);
  }

  lemma NextChar(src: string, n: nat)
    requires n < |src|
    ensures src[..n] + [src[n]] + "" == src[..n + 1] && |src[..n] + [src[n]]| == n + 1
  {
  }

  // Past a bracket a head is pending just if it is an opener.
  lemma PendingAtBracket(src: string, n: nat, space: Spaces)
    requires CodeBracket(src, n)
    ensures Pending(src, n + 1, space) <==> IsOpen(src[n])
  {
    if IsOpen(src[n]) { assert AllPassed(src, n + 1, n + 1, space); }
    if Pending(src, n + 1, space) {
      var b :| 0 <= b < n + 1 && CodeBracket(src, b) && IsOpen(src[b]) && AllPassed(src, b + 1, n + 1, space);
      assert !PassedOver(src, n, space);
      assert b == n;
    }
  }

  // One more character in the buffer, the pieces as they were.
  lemma BufferMore(src: string, n: nat, p: Paint, q: Paint, space: Spaces)
    requires n < |src| && Placed(src, n, p, space) && q.pieces == p.pieces && q.buf == p.buf + [src[n]]
    requires q.expectingHead == p.expectingHead && q.scan.depth == |OpenAt(src, n + 1)|
    requires ModeFits(src, |Text(p.pieces)|, n + 1, q.scan.mode, space)
    ensures Placed(src, n + 1, q, space)
  {
    assert Text(p.pieces) + (p.buf + [src[n]]) == src[..n] + [src[n]] == src[..n + 1];
  }

  // A string or comment that `src[n]` ends, written.
  lemma EndPlaced(src: string, n: nat, p: Paint, c: Class, q: Paint, space: Spaces)
    requires n < |src| && Placed(src, n, p, space) && Sane(space)
    requires var at := |Text(p.pieces)|;
             (c == Quoted && WholeString(src, at, n + 1)) || (c == Comment && WholeComment(src, at, n + 1))
    requires q == FlushAs(p.(buf := p.buf + [src[n]]), c).(scan := q.scan)
    requires q.scan.mode == Code && q.scan.depth == |OpenAt(src, n + 1)| && CodeAt(src, n + 1)
    requires !IsWordChar(src[n], space)
    ensures Placed(src, n + 1, q, space)
  {
    var at, more := |Text(p.pieces)|, p.(buf := p.buf + [src[n]]);
    assert Text(more.pieces) + more.buf == src[..n] + [src[n]] == src[..n + 1];
    FlushAsPlaced(src, n + 1, more, c, space);
    PendingPast(src, at, n + 1, space);
  }

  lemma CommentPlaced(src: string, n: nat, p: Paint, space: Spaces)
    requires n < |src| && Placed(src, n, p, space) && Sane(space) && p.scan.mode == InComment
    requires ScanStep(p.scan, src[n]).depth == |OpenAt(src, n + 1)|
    ensures Placed(src, n + 1, Step(p, src[n], space), space)
  {
    var at := |Text(p.pieces)|;
    InsideComment(src, at, n);
    AfterComment(src, n);
    if src[n] == '\n' {
      EndPlaced(src, n, p, Comment, Step(p, src[n], space), space);
    } else {
      BufferMore(src, n, p, Step(p, src[n], space), space);
    }
  }

  lemma StringPlaced(src: string, n: nat, p: Paint, space: Spaces)
    requires n < |src| && Placed(src, n, p, space) && Sane(space) && (p.scan.mode == InString || p.scan.mode == Escaped)
    requires ScanStep(p.scan, src[n]).depth == |OpenAt(src, n + 1)|
    ensures Placed(src, n + 1, Step(p, src[n], space), space)
  {
    var at := |Text(p.pieces)|;
    AfterString(src, at, n);
    if p.scan.mode == InString && src[n] == '"' {
      assert ClosesString(src, at, n);
      EndPlaced(src, n, p, Quoted, Step(p, src[n], space), space);
    } else {
      assert !ClosesString(src, at, n);
      StringGoesOn(src, at, n, p.scan.mode, ScanStep(p.scan, src[n]).mode, space);
      BufferMore(src, n, p, Step(p, src[n], space), space);
    }
  }

  lemma StringGoesOn(src: string, at: nat, n: nat, mode: Mode, next: Mode, space: Spaces)
    requires n < |src| && ModeFits(src, at, n, mode, space) && !ClosesString(src, at, n)
    requires (mode == InString && next == if src[n] == '\\' then Escaped else InString)
          || (mode == Escaped && next == InString)
    ensures ModeFits(src, at, n + 1, next, space)
  {
    AfterString(src, at, n);
  }

  lemma {:induction false} PaintPlaced(src: string, n: nat, space: Spaces)
    requires n <= |src| && Sane(space)
    ensures Placed(src, n, PaintTo(src, n, space), space)
  {
    if n == 0 {
      assert Text([]) + "" == src[..0];
    } else {
      PaintPlaced(src, n - 1, space);
      PaintNext(src, n - 1, space);
      StepPlaced(src, n - 1, PaintTo(src, n - 1, space), space);
    }
  }

  // -------------------------------------------------------------------- results

  ghost predicate PieceFits(src: string, ps: seq<Piece>, k: nat, space: Spaces)
    requires k < |ps|
  {
    Fits(src, ps[k], Offset(ps, k), space)
  }

  // The pieces are the text, in order, and each fits its place: so every string,
  // every comment, every bracket in code, every head and every plist key is
  // coloured whole and as what it is, and no other text is coloured.
  lemma ColoursByPlace(src: string, space: Spaces)
    requires Sane(space)
    ensures var ps := Pieces(src, space);
            Text(ps) == src && forall k | 0 <= k < |ps| :: PieceFits(src, ps, k, space)
  {
    var ps := Pieces(src, space);
    PaintPlaced(src, |src|, space);
    FinishedFits(src, PaintTo(src, |src|, space), space);
    EachFits(src, ps, space);
  }

  lemma FinishedFits(src: string, p: Paint, space: Spaces)
    requires Placed(src, |src|, p, space) && Sane(space)
    ensures Text(Finished(p, space)) == src && AllFit(src, Finished(p, space), 0, space)
  {
    assert src[..|src|] == src;
    match p.scan.mode
    case Code => FlushTextPlaced(src, |src|, p, space);
    case InComment => FlushAsPlaced(src, |src|, p, Comment, space);
    case InString => FlushAsPlaced(src, |src|, p, Quoted, space);
    case Escaped => FlushAsPlaced(src, |src|, p, Quoted, space);
  }

  lemma EachFits(src: string, ps: seq<Piece>, space: Spaces)
    requires AllFit(src, ps, 0, space)
    ensures forall k | 0 <= k < |ps| :: PieceFits(src, ps, k, space)
  {
    forall k | 0 <= k < |ps| ensures PieceFits(src, ps, k, space) {
      assert StandsAt(ps, 0, k, Fitting(src, space));
    }
  }

  // Every place is in one of the pieces.
  lemma {:induction false} PieceAt(ps: seq<Piece>, i: nat) returns (k: nat)
    requires i < |Text(ps)|
    ensures k < |ps| && Offset(ps, k) <= i < Offset(ps, k) + |ps[k].text|
  {
    var front := ps[..|ps| - 1];
    assert front + [ps[|ps| - 1]] == ps;
    if i < |Text(front)| {
      k := PieceAt(front, i);
      OffsetLeft(front, [ps[|ps| - 1]], k);
    } else {
      k := |ps| - 1;
      OffsetLeft(front, [ps[|ps| - 1]], k);
      OffsetAll(front);
    }
  }

  // The HTML shows the text, whole and in order, with one blank after a newline
  // at its end and nothing else.
  lemma ShowsTheText(src: string, space: Spaces)
    requires Sane(space)
    ensures TextOf(Rendered(src, space)) == src + (if src != "" && src[|src| - 1] == '\n' then " " else "")
  {
    var tail := if EndsLine(src) then " " else "";
    ColoursByPlace(src, space);
    PiecesShow(Pieces(src, space), tail, SpanHtml);
    assert TextOf(tail) == tail by { if EndsLine(src) { assert " "[1..] == ""; } }
  }

  // Every bracket in code is a piece of its own, in the class of a bracket.
  lemma BracketPiece(src: string, space: Spaces, i: nat) returns (k: nat)
    requires Sane(space) && CodeBracket(src, i)
    ensures var ps := Pieces(src, space);
            && k < |ps| && Offset(ps, k) == i && ps[k].Span? && |ps[k].text| == 1
            && IsBracketPiece(ps[k]) && SpanFits(src, ps[k].style, ps[k].text, i, i + 1, space)
  {
    var ps := Pieces(src, space);
    ColoursByPlace(src, space);
    k := PieceAt(ps, i);
    assert PieceFits(src, ps, k, space);
    if !IsBracketPiece(ps[k]) { NoBracketIn(src, ps[k], Offset(ps, k), i, space); }
  }

  predicate IsBracketPiece(p: Piece) { p.Span? && (p.style.Paren? || p.style.Mismatch?) }

  // No other piece holds a bracket in code.
  lemma NoBracketIn(src: string, p: Piece, at: nat, i: nat, space: Spaces)
    requires Fits(src, p, at, space) && at <= i < at + |p.text| && !IsBracketPiece(p)
    ensures !CodeBracket(src, i)
  {
    match p
    case Plain(text) => assert PlainChar(src, i, space);
    case Span(c, text) =>
      match c
      case Quoted => if at < i { InsideString(src, at, i); }
      case Comment => if at < i { InsideComment(src, at, i); }
      case PlistKey => if at < i { WordEndIsWord(src, at + 1, i, space); }
      case SpecialForm => assert TextChar(src, i);
      case FunctionHead => assert TextChar(src, i);
      case _ =>
  }

  // ------------------------------------------------------------------- partners

  // A closer and the opener it pops.
  ghost predicate Pops(src: string, i: nat, j: nat) {
    && CodeBracket(src, j) && IsClose(src[j])
    && OpenAt(src, j) != [] && OpenAt(src, j)[|OpenAt(src, j)| - 1] == i
  }

  // The `k`th of the open brackets was opened when `k` others were open.
  ghost predicate Nested(src: string, open: seq<nat>) {
    forall k | 0 <= k < |open| :: NestedAt(src, open[k], k)
  }

  ghost predicate NestedAt(src: string, i: nat, depth: nat) {
    CodeBracket(src, i) && IsOpen(src[i]) && |OpenAt(src, i)| == depth
  }

  lemma {:induction false} OpenIsNested(src: string, n: nat)
    requires n <= |src|
    ensures Nested(src, OpenAt(src, n))
  {
    if n > 0 { OpenIsNested(src, n - 1); }
  }

  // An opener and the closer that pops it have the same depth class.
  lemma PartnersMatch(src: string, space: Spaces, i: nat, j: nat) returns (opener: nat, closer: nat)
    requires Sane(space) && Pops(src, i, j)
    ensures i < j && CodeBracket(src, i) && IsOpen(src[i])
    ensures var ps := Pieces(src, space);
            && opener < |ps| && closer < |ps| && Offset(ps, opener) == i && Offset(ps, closer) == j
            && ps[opener].Span? && ps[closer].Span? && ps[opener].style == ps[closer].style && ps[opener].style.Paren?
  {
    OpenIsNested(src, j);
    assert NestedAt(src, i, |OpenAt(src, j)| - 1);
    opener := BracketPiece(src, space, i);
    closer := BracketPiece(src, space, j);
  }

  // And a closer is a mismatch if and only if it has no opener to pop.
  lemma MismatchIsUnmatched(src: string, space: Spaces, j: nat) returns (k: nat)
    requires Sane(space) && CodeBracket(src, j) && IsClose(src[j])
    ensures var ps := Pieces(src, space);
            && k < |ps| && Offset(ps, k) == j && ps[k].Span?
            && (ps[k].style.Mismatch? <==> !exists i :: Pops(src, i, j))
  {
    k := BracketPiece(src, space, j);
    var open := OpenAt(src, j);
    if open != [] { assert Pops(src, open[|open| - 1], j); }
  }

  // A step opens no bracket but the one it reads.
  lemma OpenNext(src: string, n: nat, i: nat)
    requires i < n < |src| && i !in OpenAt(src, n)
    ensures i !in OpenAt(src, n + 1)
  {
  }

  lemma PoppedNow(src: string, i: nat, j: nat)
    requires Pops(src, i, j)
    ensures i < j && i !in OpenAt(src, j + 1)
  {
    OpenIsNested(src, j);
    var open := OpenAt(src, j);
    assert OpenAt(src, j + 1) == open[..|open| - 1];
    forall k | 0 <= k < |open| - 1 ensures open[k] != i {
      assert NestedAt(src, open[k], k) && NestedAt(src, open[|open| - 1], |open| - 1);
    }
  }

  // Once popped an opener is not open again, so no two closers pop one opener.
  lemma {:induction false} PoppedStays(src: string, i: nat, j: nat, n: nat)
    requires Pops(src, i, j) && j < n <= |src|
    ensures i !in OpenAt(src, n)
  {
    PoppedNow(src, i, j);
    if n > j + 1 {
      PoppedStays(src, i, j, n - 1);
      OpenNext(src, n - 1, i);
    }
  }

  lemma PopsOnce(src: string, i: nat, j: nat, k: nat)
    requires Pops(src, i, j) && Pops(src, i, k)
    ensures j == k
  {
    if j < k { PoppedStays(src, i, j, k); } else if k < j { PoppedStays(src, i, k, j); }
  }
}
