// The REPL's highlighter (ui-assets/repl-syntax.js, rainbowHighlight): the text
// as HTML, brackets coloured by depth. The HTML shows exactly the text; brackets
// that belong together look alike, and only a closer with nothing to close is
// marked as a mismatch.
module Rainbow {
  import opened Html
  import opened LispText
  import Decimal

  const RAINBOW_DEPTHS := 7

  // Which characters are white space.
  type Spaces = char -> bool

  const SPECIAL_FORMS: set<string> := {
    "defun", "defmacro", "defvar", "defconst", "defspecial", "let", "let*", "letrec",
    "if", "when", "unless", "cond", "case", "pcase", "progn", "prog1", "prog2", "lambda", "function",
    "while", "dolist", "dotimes", "condition-case", "catch", "throw", "unwind-protect", "setq", "setq-default",
    "and", "or", "not", "quote", "if-let", "when-let", "while-let", "save-excursion", "save-restriction",
    "with-current-buffer"}

  datatype Class = PlistKey | SpecialForm | FunctionHead | Quoted | Comment | Paren(colour: nat) | Mismatch

  function Name(c: Class): string {
    match c
    case PlistKey => "repl-plist-key"
    case SpecialForm => "repl-special-form"
    case FunctionHead => "repl-function-head"
    case Quoted => "repl-string"
    case Comment => "repl-comment"
    case Paren(k) => "paren-" + Decimal.Digits(k)
    case Mismatch => "paren-mismatch"
  }

  // What is written: text as it is, or a span of one class.
  datatype Piece = Plain(text: string) | Span(style: Class, text: string)

  function Text(pieces: seq<Piece>): string {
    if pieces == [] then "" else Text(pieces[..|pieces| - 1]) + pieces[|pieces| - 1].text
  }

  // How much text comes before the `k`th piece.
  function Offset(pieces: seq<Piece>, k: nat): nat
    requires k <= |pieces|
  {
    if k == 0 then 0 else Offset(pieces, k - 1) + |pieces[k - 1].text|
  }

  lemma {:induction false} OffsetLeft(a: seq<Piece>, b: seq<Piece>, k: nat)
    requires k <= |a|
    ensures Offset(a + b, k) == Offset(a, k)
  {
    if k > 0 { OffsetLeft(a, b, k - 1); }
  }

  lemma {:induction false} OffsetRight(a: seq<Piece>, b: seq<Piece>, k: nat)
    requires k <= |b|
    ensures Offset(a + b, |a| + k) == |Text(a)| + Offset(b, k)
  {
    if k == 0 {
      OffsetLeft(a, b, |a|);
      OffsetAll(a);
    } else {
      OffsetRight(a, b, k - 1);
    }
  }

  lemma {:induction false} OffsetAll(pieces: seq<Piece>)
    ensures Offset(pieces, |pieces|) == |Text(pieces)|
    decreases |pieces|
  {
    if pieces != [] {
      var front, last := pieces[..|pieces| - 1], pieces[|pieces| - 1];
      OffsetAll(front);
      assert front + [last] == pieces;
      OffsetLeft(front, [last], |front|);
    }
  }

  // How a span of a class is written around its inner HTML.
  type Spanner = (Class, string) -> string

  function PieceHtml(p: Piece, span: Spanner): string {
    match p
    case Plain(text) => EscapeHtml(text)
    case Span(c, text) => span(c, EscapeHtml(text))
  }

  function SpanHtml(c: Class, inner: string): string { OpenTag(c) + inner + "</span>" }

  function OpenTag(c: Class): string { "<span class=\"" + Name(c) + "\">" }

  function HtmlOf(pieces: seq<Piece>, span: Spanner): string {
    if pieces == [] then "" else HtmlOf(pieces[..|pieces| - 1], span) + PieceHtml(pieces[|pieces| - 1], span)
  }

  lemma {:induction false} TextJoin(a: seq<Piece>, b: seq<Piece>)
    ensures Text(a + b) == Text(a) + Text(b)
    decreases |b|
  {
    if b == [] {
      assert a + b == a;
    } else {
      assert (a + b)[..|a + b| - 1] == a + b[..|b| - 1];
      TextJoin(a, b[..|b| - 1]);
    }
  }

  lemma HtmlNext(pieces: seq<Piece>, p: Piece, span: Spanner)
    ensures HtmlOf(pieces + [p], span) == HtmlOf(pieces, span) + PieceHtml(p, span)
  {
    assert (pieces + [p])[..|pieces|] == pieces;
  }

  lemma {:induction false} HtmlJoin(a: seq<Piece>, b: seq<Piece>, span: Spanner)
    ensures HtmlOf(a + b, span) == HtmlOf(a, span) + HtmlOf(b, span)
    decreases |b|
  {
    if b == [] {
      assert a + b == a;
    } else {
      var front, last := b[..|b| - 1], b[|b| - 1];
      assert a + b == (a + front) + [last] && b == front + [last];
      HtmlJoin(a, front, span);
      HtmlNext(a + front, last, span);
      HtmlNext(front, last, span);
      Associates(HtmlOf(a, span), HtmlOf(front, span), PieceHtml(last, span));
    }
  }

  // -------------------------------------------------------------- what is shown

  lemma NameIsClean(c: Class)
    ensures forall i | 0 <= i < |Name(c)| :: Name(c)[i] != '>'
  {
    if c.Paren? {
      var d := Decimal.Digits(c.colour);
      forall i | 0 <= i < |Name(c)| ensures Name(c)[i] != '>' {
        if i >= 6 { assert Name(c)[i] == d[i - 6] && Decimal.IsDigit(d[i - 6]); }
      }
    }
  }

  lemma OpenTagIs(c: Class)
    ensures IsTag(OpenTag(c))
  {
    NameIsClean(c);
    var tag, name := OpenTag(c), Name(c);
    forall i | 0 <= i < |tag| - 1 ensures tag[i] != '>' {
      if 13 <= i < 13 + |name| { assert tag[i] == name[i - 13]; }
    }
  }

  // Written by SpanHtml, that is.
  ghost predicate IsSpanHtml(span: Spanner) { forall c, inner :: span(c, inner) == SpanHtml(c, inner) }

  lemma PieceShows(p: Piece, rest: string, span: Spanner)
    requires IsSpanHtml(span)
    ensures TextOf(PieceHtml(p, span) + rest) == p.text + TextOf(rest)
  {
    match p
    case Plain(text) => EscapedText(text, rest);
    case Span(c, text) =>
      assert span(c, EscapeHtml(text)) == SpanHtml(c, EscapeHtml(text));
      SpanShows(OpenTag(c), text, "</span>", rest, c);
  }

  lemma SpanShows(open: string, text: string, close: string, rest: string, c: Class)
    requires open == OpenTag(c) && close == "</span>"
    ensures TextOf(open + EscapeHtml(text) + close + rest) == text + TextOf(rest)
  {
    OpenTagIs(c);
    assert IsTag(close);
    Inside(open, EscapeHtml(text), close, rest);
    TagText(open, EscapeHtml(text) + (close + rest));
    EscapedText(text, close + rest);
    TagText(close, rest);
  }

  lemma Inside(a: string, b: string, c: string, d: string)
    ensures a + b + c + d == a + (b + (c + d))
  {
  }

  lemma {:induction false} PiecesShow(pieces: seq<Piece>, rest: string, span: Spanner)
    requires IsSpanHtml(span)
    ensures TextOf(HtmlOf(pieces, span) + rest) == Text(pieces) + TextOf(rest)
  {
    if pieces == [] {
      assert HtmlOf(pieces, span) + rest == rest;
    } else {
      var front, last := pieces[..|pieces| - 1], pieces[|pieces| - 1];
      Associates(HtmlOf(front, span), PieceHtml(last, span), rest);
      PiecesShow(front, PieceHtml(last, span) + rest, span);
      PieceShows(last, rest, span);
      Associates(Text(front), last.text, TextOf(rest));
    }
  }

  // ------------------------------------------------------------- plist keys

  predicate IsWordChar(c: char, space: Spaces) {
    !space(c) && c !in {'(', ')', '[', ']', '{', '}', '"', ';', '\'', '`', ',', '@'}
  }

  predicate KeyAt(text: string, i: nat, space: Spaces)
    requires i < |text|
  {
    && text[i] == ':' && (i > 0 ==> !IsWordChar(text[i - 1], space))
    && i + 1 < |text| && IsWordChar(text[i + 1], space)
  }

  function WordEnd(text: string, i: nat, space: Spaces): (j: nat)
    requires i <= |text|
    ensures i <= j <= |text|
    decreases |text| - i
  {
    if i < |text| && IsWordChar(text[i], space) then WordEnd(text, i + 1, space) else i
  }

  lemma {:induction false} WordEndIsWord(text: string, i: nat, k: nat, space: Spaces)
    requires i <= |text| && i <= k < WordEnd(text, i, space)
    ensures IsWordChar(text[k], space)
    decreases |text| - i
  {
    if k > i { WordEndIsWord(text, i + 1, k, space); }
  }

  // The text from `last` on with its keys marked, looked for from `i` on.
  function MarkKeys(text: string, last: nat, i: nat, space: Spaces): seq<Piece>
    requires last <= i <= |text|
    decreases |text| - i
  {
    if i == |text| then [Plain(text[last..])]
    else if KeyAt(text, i, space) then
      var end := WordEnd(text, i + 1, space);
      [Plain(text[last..i]), Span(PlistKey, text[i..end])] + MarkKeys(text, end, end, space)
    else MarkKeys(text, last, i + 1, space)
  }

  lemma {:induction false} MarkKeysText(text: string, last: nat, i: nat, space: Spaces)
    requires last <= i <= |text|
    ensures Text(MarkKeys(text, last, i, space)) == text[last..]
    decreases |text| - i
  {
    if i == |text| {
      OneText(Plain(text[last..]));
    } else if KeyAt(text, i, space) {
      var end := WordEnd(text, i + 1, space);
      MarkKeysText(text, end, end, space);
      KeyText(text, last, i, end, MarkKeys(text, end, end, space));
    } else {
      MarkKeysText(text, last, i + 1, space);
    }
  }

  lemma KeyText(text: string, last: nat, i: nat, end: nat, rest: seq<Piece>)
    requires last <= i <= end <= |text| && Text(rest) == text[end..]
    ensures var all := [Plain(text[last..i]), Span(PlistKey, text[i..end])] + rest;
            Text(all) == text[last..]
  {
    var two := [Plain(text[last..i]), Span(PlistKey, text[i..end])];
    TextJoin(two, rest);
    TwoText(two[0], two[1]);
    assert text[last..i] + text[i..end] + text[end..] == text[last..];
  }

  lemma OneText(p: Piece)
    ensures Text([p]) == p.text
  {
    assert [p][..0] == [];
  }

  lemma OneHtml(p: Piece, span: Spanner)
    ensures HtmlOf([p], span) == PieceHtml(p, span)
  {
    assert [p][..0] == [];
  }

  lemma TwoText(p: Piece, q: Piece)
    ensures Text([p, q]) == p.text + q.text
  {
    assert [p, q][..1] == [p];
    OneText(p);
  }

  // --------------------------------------------------------------------- flush

  function SpaceEnd(text: string, i: nat, space: Spaces, want: bool): (j: nat)
    requires i <= |text|
    ensures i <= j <= |text|
    decreases |text| - i
  {
    if i < |text| && space(text[i]) == want then SpaceEnd(text, i + 1, space, want) else i
  }

  function HeadClass(head: string): Class { if head in SPECIAL_FORMS then SpecialForm else FunctionHead }

  // A buffer that begins a list: white space, the head, and the rest.
  function HeadPieces(buf: string, ws: nat, space: Spaces): seq<Piece>
    requires ws < |buf|
  {
    var end := SpaceEnd(buf, ws, space, false);
    if buf[ws] == ':' then [Plain(buf[..ws])] + MarkKeys(buf[ws..], 0, 0, space)
    else
      var head := buf[ws..end];
      [Plain(buf[..ws]), Span(HeadClass(head), head)]
      + MarkKeys(buf[end..], 0, 0, space)
  }

  // What a buffer is written as, without a class of its own.
  function BufPieces(buf: string, expectingHead: bool, space: Spaces): seq<Piece> {
    var ws := SpaceEnd(buf, 0, space, true);
    if !expectingHead then MarkKeys(buf, 0, 0, space)
    else if ws == |buf| then [Plain(buf)]
    else HeadPieces(buf, ws, space)
  }

  lemma BufText(buf: string, expectingHead: bool, space: Spaces)
    ensures Text(BufPieces(buf, expectingHead, space)) == buf
  {
    var ws := SpaceEnd(buf, 0, space, true);
    MarkKeysText(buf, 0, 0, space);
    if expectingHead {
      if ws == |buf| { OneText(Plain(buf)); } else { HeadText(buf, ws, space); }
    }
  }

  // Pieces followed by a text with its keys marked.
  lemma ThenKeys(front: seq<Piece>, text: string, space: Spaces)
    ensures var all := front + MarkKeys(text, 0, 0, space);
            Text(all) == Text(front) + text
  {
    MarkKeysText(text, 0, 0, space);
    TextJoin(front, MarkKeys(text, 0, 0, space));
  }

  lemma HeadText(buf: string, ws: nat, space: Spaces)
    requires ws < |buf|
    ensures Text(HeadPieces(buf, ws, space)) == buf
  {
    if buf[ws] == ':' { KeyHeadText(buf, ws, space); } else { CallHeadText(buf, ws, SpaceEnd(buf, ws, space, false), space); }
  }

  lemma KeyHeadText(buf: string, ws: nat, space: Spaces)
    requires ws < |buf|
    ensures var p := [Plain(buf[..ws])] + MarkKeys(buf[ws..], 0, 0, space);
            Text(p) == buf
  {
    OneText(Plain(buf[..ws]));
    ThenKeys([Plain(buf[..ws])], buf[ws..], space);
    assert buf[..ws] + buf[ws..] == buf;
  }

  lemma CallHeadText(buf: string, ws: nat, end: nat, space: Spaces)
    requires ws <= end <= |buf|
    ensures var head := buf[ws..end];
            var p := [Plain(buf[..ws]), Span(HeadClass(head), head)] + MarkKeys(buf[end..], 0, 0, space);
            Text(p) == buf
  {
    var c := HeadClass(buf[ws..end]);
    TwoText(Plain(buf[..ws]), Span(c, buf[ws..end]));
    ThenKeys([Plain(buf[..ws]), Span(c, buf[ws..end])], buf[end..], space);
    assert buf[..ws] + buf[ws..end] + buf[end..] == buf;
  }

  // ---------------------------------------------------------------- the scan

  datatype Mode = Code | InString | Escaped | InComment

  datatype Scan = Scan(depth: nat, mode: Mode)

  function ScanStep(s: Scan, c: char): Scan {
    match s.mode
    case InComment => if c == '\n' then s.(mode := Code) else s
    case InString => if c == '\\' then s.(mode := Escaped) else if c == '"' then s.(mode := Code) else s
    case Escaped => s.(mode := InString)
    case Code =>
      if c == ';' then s.(mode := InComment)
      else if c == '"' then s.(mode := InString)
      else if IsOpen(c) then s.(depth := s.depth + 1)
      else if IsClose(c) && s.depth > 0 then s.(depth := s.depth - 1)
      else s
  }

  // How deep in brackets, and in what, the text is after its first `n` characters.
  function ScanTo(src: string, n: nat): Scan
    requires n <= |src|
  {
    if n == 0 then Scan(0, Code) else ScanStep(ScanTo(src, n - 1), src[n - 1])
  }

  function BracketClass(c: char, depth: nat): Class {
    if IsOpen(c) then Paren(depth % RAINBOW_DEPTHS)
    else if depth == 0 then Mismatch
    else Paren((depth - 1) % RAINBOW_DEPTHS)
  }

  // ------------------------------------------------------------- the painting

  datatype Paint = Paint(pieces: seq<Piece>, buf: string, scan: Scan, expectingHead: bool)

  predicate HeadIn(buf: string, space: Spaces) { SpaceEnd(buf, 0, space, true) < |buf| }

  function FlushText(p: Paint, space: Spaces): Paint {
    if p.buf == "" then p
    else Paint(p.pieces + BufPieces(p.buf, p.expectingHead, space), "", p.scan,
               p.expectingHead && !HeadIn(p.buf, space))
  }

  function FlushAs(p: Paint, c: Class): Paint {
    if p.buf == "" then p else p.(pieces := p.pieces + [Span(c, p.buf)], buf := "")
  }

  function StepCode(p: Paint, c: char, space: Spaces): Paint {
    if c == ';' || c == '"' then FlushText(p, space).(buf := [c])
    else if IsOpen(c) || IsClose(c) then
      var f := FlushText(p, space);
      f.(pieces := f.pieces + [Span(BracketClass(c, f.scan.depth), [c])], expectingHead := IsOpen(c))
    else p.(buf := p.buf + [c])
  }

  function Step(p: Paint, c: char, space: Spaces): Paint {
    var to := ScanStep(p.scan, c);
    var q :=
      match p.scan.mode
      case Code => StepCode(p, c, space)
      case InComment => if c == '\n' then FlushAs(p.(buf := p.buf + [c]), Comment) else p.(buf := p.buf + [c])
      case InString => if c == '"' then FlushAs(p.(buf := p.buf + [c]), Quoted) else p.(buf := p.buf + [c])
      case Escaped => p.(buf := p.buf + [c]);
    q.(scan := to)
  }

  function PaintTo(src: string, n: nat, space: Spaces): Paint
    requires n <= |src|
  {
    if n == 0 then Paint([], "", Scan(0, Code), false) else Step(PaintTo(src, n - 1, space), src[n - 1], space)
  }

  function Finished(p: Paint, space: Spaces): seq<Piece> {
    match p.scan.mode
    case Code => FlushText(p, space).pieces
    case InComment => FlushAs(p, Comment).pieces
    case _ => FlushAs(p, Quoted).pieces
  }

  function EndsLine(src: string): bool { src != "" && src[|src| - 1] == '\n' }

  lemma PaintNext(src: string, n: nat, space: Spaces)
    requires n < |src|
    ensures PaintTo(src, n + 1, space) == Step(PaintTo(src, n, space), src[n], space)
  {
  }

  lemma ScanNext(src: string, n: nat)
    requires n < |src|
    ensures ScanTo(src, n + 1) == ScanStep(ScanTo(src, n), src[n])
  {
  }

  lemma StepScan(p: Paint, c: char, space: Spaces)
    ensures Step(p, c, space).scan == ScanStep(p.scan, c)
  {
  }

  // ------------------------------------------------------------------ the whole

  function Pieces(src: string, space: Spaces): seq<Piece> { Finished(PaintTo(src, |src|, space), space) }

  function Rendered(src: string, space: Spaces): string {
    HtmlOf(Pieces(src, space), SpanHtml) + (if EndsLine(src) then " " else "")
  }

  // ------------------------------------------------------------- as it runs

  lemma HtmlPlain(done: seq<Piece>, text: string, span: Spanner)
    ensures HtmlOf(done + [Plain(text)], span) == HtmlOf(done, span) + EscapeHtml(text)
  {
    HtmlNext(done, Plain(text), span);
  }

  lemma HtmlSpan(done: seq<Piece>, c: Class, text: string, span: Spanner)
    ensures HtmlOf(done + [Span(c, text)], span) == HtmlOf(done, span) + span(c, EscapeHtml(text))
  {
    HtmlNext(done, Span(c, text), span);
  }

  method MarkPlistKeys(text: string, space: Spaces, span: Spanner) returns (out: string)
    ensures out == HtmlOf(MarkKeys(text, 0, 0, space), span)
  {
    out := "";
    ghost var all, done := MarkKeys(text, 0, 0, space), [];
    assert all == done + all;
    var last, i := 0, 0;
    while i < |text|
      invariant last <= i <= |text| && out == HtmlOf(done, span)
      invariant all == done + MarkKeys(text, last, i, space)
      decreases |text| - i
    {
      if KeyAt(text, i, space) {
        var end := WordEnd(text, i + 1, space);
        HtmlPlain(done, text[last..i], span);
        HtmlSpan(done + [Plain(text[last..i])], PlistKey, text[i..end], span);
        KeyStep(text, last, i, end, space, all, done);
        out := out + EscapeHtml(text[last..i]);
        out := out + span(PlistKey, EscapeHtml(text[i..end]));
        done := done + [Plain(text[last..i])] + [Span(PlistKey, text[i..end])];
        last, i := end, end;
      } else {
        i := i + 1;
      }
    }
    HtmlPlain(done, text[last..], span);
    out := out + EscapeHtml(text[last..]);
  }

  lemma KeyStep(text: string, last: nat, i: nat, end: nat, space: Spaces, all: seq<Piece>, done: seq<Piece>)
    requires last <= i < |text| && KeyAt(text, i, space) && end == WordEnd(text, i + 1, space)
    requires all == done + MarkKeys(text, last, i, space)
    ensures all == done + [Plain(text[last..i])] + [Span(PlistKey, text[i..end])] + MarkKeys(text, end, end, space)
  {
  }

  lemma EscapedBracket(ch: char)
    requires IsOpen(ch) || IsClose(ch)
    ensures EscapeHtml([ch]) == [ch]
  {
    assert [ch][1..] == "";
  }

  function BracketDepth(c: char, depth: nat): nat {
    if IsOpen(c) then depth + 1 else if depth > 0 then depth - 1 else 0
  }

  // A bracket in code, spelled out.
  lemma StepBracket(p: Paint, c: char, space: Spaces)
    requires p.scan.mode == Code && (IsOpen(c) || IsClose(c))
    ensures var f := FlushText(p, space);
            f.scan == p.scan
            && Step(p, c, space) == Paint(f.pieces + [Span(BracketClass(c, p.scan.depth), [c])], f.buf,
                                          Scan(BracketDepth(c, p.scan.depth), Code), IsOpen(c))
  {
  }

  // The loop's variables, which its flush closes over.
  class Highlighter {
    const space: Spaces
    const span: Spanner
    var out: string
    var depth: nat
    var inString: bool
    var inComment: bool
    var buf: string
    var expectingHead: bool
    // What `out` is made of, and whether a backslash was the last thing read.
    ghost var pieces: seq<Piece>
    ghost var escaped: bool

    constructor (space: Spaces, span: Spanner)
      ensures this.space == space && this.span == span && Shows() && Now() == Paint([], "", Scan(0, Code), false)
    {
      this.space, this.span := space, span;
      out, depth, inString, inComment, buf, expectingHead := "", 0, false, false, "", false;
      pieces, escaped := [], false;
    }

    ghost predicate Shows()
      reads this
    {
      out == HtmlOf(pieces, span) && !(inString && inComment) && (escaped ==> inString)
    }

    ghost function Now(): Paint
      reads this
    {
      Paint(pieces, buf,
            Scan(depth, if inComment then InComment else if escaped then Escaped else if inString then InString else Code),
            expectingHead)
    }

    method Flush(ghost to: Paint)
      requires Shows() && to == FlushText(Now(), space)
      modifies this`out, this`buf, this`expectingHead, this`pieces
      ensures Shows() && Now() == to
    {
      if buf == "" { return; }
      ghost var more := BufPieces(buf, expectingHead, space);
      var html, headSeen := BufHtml(more);
      HtmlJoin(pieces, more, span);
      out := out + html;
      pieces := pieces + more;
      if headSeen { expectingHead := false; }
      buf := "";
    }

    method BufHtml(ghost more: seq<Piece>) returns (html: string, headSeen: bool)
      requires more == BufPieces(buf, expectingHead, space)
      ensures html == HtmlOf(more, span)
      ensures headSeen == (expectingHead && HeadIn(buf, space))
    {
      headSeen := false;
      if !expectingHead {
        html := MarkPlistKeys(buf, space, span);
        return;
      }
      var ws := SpaceEnd(buf, 0, space, true);
      if ws < |buf| {
        html := FlushHead(ws);
        headSeen := true;
      } else {
        html := EscapeHtml(buf);
        OneHtml(Plain(buf), span);
      }
    }

    method FlushHead(ws: nat) returns (html: string)
      requires ws < |buf|
      ensures html == HtmlOf(HeadPieces(buf, ws, space), span)
    {
      var end := SpaceEnd(buf, ws, space, false);
      html := EscapeHtml(buf[..ws]);
      OneHtml(Plain(buf[..ws]), span);
      if buf[ws] == ':' {
        var keys := MarkPlistKeys(buf[ws..], space, span);
        HtmlJoin([Plain(buf[..ws])], MarkKeys(buf[ws..], 0, 0, space), span);
        html := html + keys;
      } else {
        var head := buf[ws..end];
        var rest := MarkPlistKeys(buf[end..], space, span);
        HtmlSpan([Plain(buf[..ws])], HeadClass(head), head, span);
        assert [Plain(buf[..ws])] + [Span(HeadClass(head), head)] == [Plain(buf[..ws]), Span(HeadClass(head), head)];
        HtmlJoin([Plain(buf[..ws]), Span(HeadClass(head), head)], MarkKeys(buf[end..], 0, 0, space), span);
        html := html + span(HeadClass(head), EscapeHtml(head));
        html := html + rest;
      }
    }

    method FlushClass(c: Class, ghost to: Paint)
      requires Shows() && to == FlushAs(Now(), c)
      modifies this`out, this`buf, this`pieces
      ensures Shows() && Now() == to
    {
      if buf == "" { return; }
      HtmlSpan(pieces, c, buf, span);
      out := out + span(c, EscapeHtml(buf));
      pieces := pieces + [Span(c, buf)];
      buf := "";
    }

    method CommentChar(ch: char, ghost to: Paint)
      requires Shows() && inComment && to == Step(Now(), ch, space)
      modifies this
      ensures Shows() && Now() == to
    {
      buf := buf + [ch];
      if ch == '\n' {
        FlushClass(Comment, FlushAs(Now(), Comment));
        inComment := false;
      }
    }

    // One character of a string, or two after a backslash.
    method StringChars(src: string, i: nat, ghost to: Paint) returns (next: nat)
      requires Shows() && inString && !escaped && i < |src| && to == Step(Now(), src[i], space)
      modifies this
      ensures Shows() && i < next <= |src| && (escaped ==> next == |src|)
      ensures next == i + 1 || next == i + 2
      ensures next == i + 1 ==> Now() == to
      ensures next == i + 2 ==> Now() == Step(to, src[i + 1], space)
    {
      var ch := src[i];
      buf := buf + [ch];
      if ch == '\\' && i + 1 < |src| {
        buf := buf + [src[i + 1]];
        return i + 2;
      }
      if ch == '"' {
        FlushClass(Quoted, FlushAs(Now(), Quoted));
        inString := false;
      }
      escaped := ch == '\\';
      next := i + 1;
    }

    method CodeChar(ch: char, ghost to: Paint)
      requires Shows() && !inComment && !inString && to == Step(Now(), ch, space)
      modifies this
      ensures Shows() && Now() == to && !escaped
    {
      if ch == ';' {
        Flush(FlushText(Now(), space));
        buf := [ch];
        inComment := true;
      } else if ch == '"' {
        Flush(FlushText(Now(), space));
        buf := [ch];
        inString := true;
      } else if IsOpen(ch) || IsClose(ch) {
        BracketChar(ch, to);
      } else {
        buf := buf + [ch];
      }
    }

    method BracketChar(ch: char, ghost to: Paint)
      requires Shows() && !inComment && !inString && to == Step(Now(), ch, space) && (IsOpen(ch) || IsClose(ch))
      modifies this
      ensures Shows() && Now() == to && !escaped && !inComment && !inString
    {
      ghost var flushed := FlushText(Now(), space);
      StepBracket(Now(), ch, space);
      Flush(flushed);
      if IsOpen(ch) { OpenBracket(ch); } else { CloseBracket(ch); }
    }

    method OpenBracket(ch: char)
      requires Shows() && IsOpen(ch)
      modifies this`out, this`depth, this`pieces, this`expectingHead
      ensures Shows() && pieces == old(pieces) + [Span(BracketClass(ch, old(depth)), [ch])]
      ensures depth == BracketDepth(ch, old(depth)) && expectingHead
    {
      Bracket(ch, Paren(depth % RAINBOW_DEPTHS));
      depth := depth + 1;
      expectingHead := true;
    }

    method CloseBracket(ch: char)
      requires Shows() && IsClose(ch)
      modifies this`out, this`depth, this`pieces, this`expectingHead
      ensures Shows() && pieces == old(pieces) + [Span(BracketClass(ch, old(depth)), [ch])]
      ensures depth == BracketDepth(ch, old(depth)) && !expectingHead
    {
      var c := Mismatch;
      if depth > 0 {
        depth := depth - 1;
        c := Paren(depth % RAINBOW_DEPTHS);
      }
      assert c == BracketClass(ch, old(depth));
      Bracket(ch, c);
      expectingHead := false;
    }

    method Bracket(ch: char, c: Class)
      requires Shows() && (IsOpen(ch) || IsClose(ch))
      modifies this`out, this`pieces
      ensures Shows() && pieces == old(pieces) + [Span(c, [ch])]
    {
      HtmlSpan(pieces, c, [ch], span);
      EscapedBracket(ch);
      out := out + span(c, [ch]);
      pieces := pieces + [Span(c, [ch])];
    }
  }

  // One turn of the loop; `p1` and `p2` are the paint after one character more
  // and after two.
  method ReadOn(h: Highlighter, src: string, i: nat, ghost p1: Paint, ghost p2: Paint) returns (next: nat)
    requires i < |src| && h.Shows() && !h.escaped && p1 == Step(h.Now(), src[i], h.space)
    requires i + 1 < |src| ==> p2 == Step(p1, src[i + 1], h.space)
    modifies h
    ensures h.Shows() && i < next <= |src| && (h.escaped ==> next == |src|)
    ensures (next == i + 1 && h.Now() == p1) || (next == i + 2 && h.Now() == p2)
  {
    if h.inComment {
      h.CommentChar(src[i], p1);
      next := i + 1;
    } else if h.inString {
      next := h.StringChars(src, i, p1);
    } else {
      h.CodeChar(src[i], p1);
      next := i + 1;
    }
  }

  method FinishOff(h: Highlighter, src: string, ghost p: Paint)
    requires h.Shows() && h.Now() == p
    modifies h
    ensures h.out == HtmlOf(Finished(p, h.space), h.span)
  {
    if h.inString {
      h.FlushClass(Quoted, FlushAs(p, Quoted));
    } else if h.inComment {
      h.FlushClass(Comment, FlushAs(p, Comment));
    } else {
      h.Flush(FlushText(p, h.space));
    }
  }

  lemma NextTwo(src: string, i: nat, space: Spaces, p: Paint) returns (p1: Paint, p2: Paint)
    requires i < |src| && p == PaintTo(src, i, space)
    ensures p1 == Step(p, src[i], space) == PaintTo(src, i + 1, space)
    ensures i + 1 < |src| ==> p2 == Step(p1, src[i + 1], space) == PaintTo(src, i + 2, space)
  {
    PaintNext(src, i, space);
    p1 := Step(p, src[i], space);
    p2 := p1;
    if i + 1 < |src| {
      PaintNext(src, i + 1, space);
      p2 := Step(p1, src[i + 1], space);
    }
  }

  // The text painted whole, and the loop's variables with it.
  method PaintAll(src: string, h: Highlighter)
    requires h.Shows() && h.Now() == PaintTo(src, 0, h.space)
    modifies h
    ensures h.Shows() && h.Now() == PaintTo(src, |src|, h.space)
  {
    ghost var p := h.Now();
    var i := 0;
    while i < |src|
      invariant i <= |src| && h.Shows() && (h.escaped ==> i == |src|)
      invariant h.Now() == p && p == PaintTo(src, i, h.space)
      decreases |src| - i
    {
      ghost var p1, p2 := NextTwo(src, i, h.space, p);
      var next := ReadOn(h, src, i, p1, p2);
      p := if next == i + 1 then p1 else p2;
      i := next;
    }
  }

  method RainbowHighlight(src: string, space: Spaces) returns (out: string)
    ensures out == Rendered(src, space)
  {
    var h := new Highlighter(space, SpanHtml);
    PaintAll(src, h);
    FinishOff(h, src, PaintTo(src, |src|, space));
    out := h.out + (if EndsLine(src) then " " else "");
  }
}
