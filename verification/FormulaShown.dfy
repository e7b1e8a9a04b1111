// The text a rendered formula shows (ui-assets/formula-ast.js, formulaToHtml): it
// is the formula's print, once the arguments that were put on lines of their own
// are joined again.
module FormulaShown {
  import opened Decimal
  import opened FormulaAst
  import opened FormulaLexemes
  import opened FormulaSign
  import FormulaRoundTrip
  import Html

  // What a reader sees of `toks` inside the elements `open`, innermost first; true
  // stands for a line of its own. The comma at the end of such a line joins it to
  // the next, if there is a next.
  function Seen(toks: seq<Tok>, open: seq<bool>): string {
    if toks == [] then ""
    else
      match toks[0]
      case OpenSpan(_) => Seen(toks[1..], [false] + open)
      case OpenRef(_) => Seen(toks[1..], [false] + open)
      case OpenDiv => Seen(toks[1..], [true] + open)
      case Close => Seen(toks[1..], if open == [] then [] else open[1..])
      case Text(text) => (if open != [] && open[0] then Joint(toks) else Html.TextOf(text)) + Seen(toks[1..], open)
  }

  function Joint(toks: seq<Tok>): string {
    if |toks| > 2 && toks[1].Close? && toks[2].OpenDiv? then ", " else ""
  }

  predicate NoMarkup(s: string) { forall i | 0 <= i < |s| :: s[i] != '<' && s[i] != '&' }

  // What is written as it is: operators and numbers without markup.
  predicate PlainMarks(n: Node) {
    match n
    case Num(lexeme) => NoMarkup(lexeme)
    case Neg(inner) => PlainMarks(inner)
    case Paren(body) => PlainMarks(body)
    case Op(op, left, right) => op != '<' && op != '&' && PlainMarks(left) && PlainMarks(right)
    case Call(_, args) => forall a | a in args :: PlainMarks(a)
    case _ => true
  }

  lemma {:induction false} PlainText(s: string)
    requires NoMarkup(s)
    ensures Html.TextOf(s) == s
  {
    if s != "" {
      assert s[0] != '<' && s[0] != '&';
      PlainText(s[1..]);
      assert [s[0]] + s[1..] == s;
    }
  }

  lemma {:induction false} SeenOne(t: Tok, rest: seq<Tok>, open: seq<bool>)
    ensures t.Text? && (open == [] || !open[0]) ==> Seen([t] + rest, open) == Html.TextOf(t.text) + Seen(rest, open)
    ensures t.OpenSpan? || t.OpenRef? ==> Seen([t] + rest, open) == Seen(rest, [false] + open)
    ensures t.OpenDiv? ==> Seen([t] + rest, open) == Seen(rest, [true] + open)
    ensures t.Close? && open != [] ==> Seen([t] + rest, open) == Seen(rest, open[1..])
  {
    assert ([t] + rest)[1..] == rest;
  }

  // `part` shows `text` inside `open`, whatever follows, and leaves the open
  // elements as they were.
  ghost predicate Shows(part: seq<Tok>, open: seq<bool>, text: string) {
    forall rest {:trigger Seen(part + rest, open)} :: Seen(part + rest, open) == text + Seen(rest, open)
  }

  lemma ShowsText(text: string, open: seq<bool>, shown: string)
    requires (open == [] || !open[0]) && Html.TextOf(text) == shown
    ensures Shows([Text(text)], open, shown)
  {
    forall rest ensures Seen([Text(text)] + rest, open) == shown + Seen(rest, open) {
      SeenOne(Text(text), rest, open);
    }
  }

  lemma ShowsBoth(a: seq<Tok>, b: seq<Tok>, open: seq<bool>, x: string, y: string)
    requires Shows(a, open, x) && Shows(b, open, y)
    ensures Shows(a + b, open, x + y)
  {
    forall rest ensures Seen(a + b + rest, open) == x + y + Seen(rest, open) {
      assert a + b + rest == a + (b + rest);
      Html.Associates(x, y, Seen(rest, open));
    }
  }

  lemma ShowsInside(first: Tok, inner: seq<Tok>, open: seq<bool>, text: string)
    requires (first.OpenSpan? || first.OpenRef?) && Shows(inner, [false] + open, text)
    ensures Shows([first] + inner + [Close], open, text)
  {
    forall rest ensures Seen([first] + inner + [Close] + rest, open) == text + Seen(rest, open) {
      assert [first] + inner + [Close] + rest == [first] + (inner + ([Close] + rest));
      SeenOne(first, inner + ([Close] + rest), open);
      SeenOne(Close, rest, [false] + open);
      assert ([false] + open)[1..] == open;
      assert Seen(inner + ([Close] + rest), [false] + open) == text + Seen([Close] + rest, [false] + open);
    }
  }

  lemma ShowsSpan(cls: string, inner: seq<Tok>, open: seq<bool>, text: string)
    requires Shows(inner, [false] + open, text)
    ensures Shows(Span(cls, inner), open, text)
  {
    ShowsInside(OpenSpan(cls), inner, open, text);
  }

  lemma ShowsLabel(cls: string, text: string, open: seq<bool>, shown: string)
    requires Html.TextOf(text) == shown
    ensures Shows(Span(cls, [Text(text)]), open, shown)
  {
    ShowsText(text, [false] + open, shown);
    ShowsSpan(cls, [Text(text)], open, shown);
  }

  lemma EscapedShows(s: string)
    ensures Html.TextOf(Html.EscapeHtml(s)) == s
  {
    Html.EscapedText(s, "");
    assert Html.EscapeHtml(s) + "" == Html.EscapeHtml(s) && s + "" == s;
  }

  lemma DigitsShow(id: nat)
    ensures Html.TextOf("#" + Digits(id)) == "#" + Digits(id)
  {
    var s := "#" + Digits(id);
    forall i | 0 <= i < |s| ensures s[i] != '<' && s[i] != '&' {
      if i > 0 { assert s[i] == Digits(id)[i - 1] && IsDigit(Digits(id)[i - 1]); }
    }
    PlainText(s);
  }

  lemma {:induction false} RenderShows(n: Node, sub: bool, open: seq<bool>)
    requires PlainMarks(n)
    ensures Shows(Render(n, sub), open, Print(n))
    decreases n, 1
  {
    match n
    case Ref(id) =>
      DigitsShow(id);
      ShowsText("#" + Digits(id), [false] + open, Print(n));
      ShowsInside(OpenRef(id), [Text("#" + Digits(id))], open, Print(n));
      assert Render(n, sub) == [OpenRef(id)] + [Text("#" + Digits(id))] + [Close];
    case Num(lexeme) => PlainText(lexeme); ShowsLabel("formula-num", lexeme, open, lexeme);
    case Absent => PlainText("None"); ShowsLabel("formula-num", "None", open, "None");
    case Ident(name) => EscapedShows(name); ShowsLabel("formula-ident", Html.EscapeHtml(name), open, name);
    case Unknown(text) => EscapedShows(text); ShowsLabel("formula-raw", Html.EscapeHtml(text), open, text);
    case Paren(body) => ParenShows(n, sub, open);
    case Neg(inner) => NegShows(n, sub, open);
    case Op(_, _, _) => OpShows(n, sub, open);
    case Call(_, _) => CallShows(n, sub, open);
  }

  lemma {:induction false} ParenShows(n: Node, sub: bool, open: seq<bool>)
    requires n.Paren? && PlainMarks(n)
    ensures Shows(Render(n, sub), open, Print(n))
    decreases n, 0
  {
    var inside, body := [false] + open, Render(n.body, sub);
    RenderShows(n.body, sub, inside);
    PlainText("(");
    PlainText(")");
    ShowsText("(", inside, "(");
    ShowsText(")", inside, ")");
    ShowsBoth([Text("(")], body, inside, "(", Print(n.body));
    ShowsBoth([Text("(")] + body, [Text(")")], inside, "(" + Print(n.body), ")");
    ShowsSpan("formula-node", [Text("(")] + body + [Text(")")], open, Print(n));
  }

  lemma {:induction false} NegShows(n: Node, sub: bool, open: seq<bool>)
    requires n.Neg? && PlainMarks(n)
    ensures Shows(Render(n, sub), open, Print(n))
    decreases n, 0
  {
    var inside := [false] + open;
    var minus, operand := Span("formula-op", [Text("-")]), Span(FlipClass(!sub), Render(n.inner, !sub));
    PlainText("-");
    ShowsLabel("formula-op", "-", inside, "-");
    RenderShows(n.inner, !sub, [false] + inside);
    ShowsSpan(FlipClass(!sub), Render(n.inner, !sub), inside, Print(n.inner));
    ShowsBoth(minus, operand, inside, "-", Print(n.inner));
    ShowsSpan("formula-node", minus + operand, open, Print(n));
  }

  lemma {:induction false} OpShows(n: Node, sub: bool, open: seq<bool>)
    requires n.Op? && PlainMarks(n)
    ensures Shows(Render(n, sub), open, Print(n))
    decreases n, 0
  {
    var inside := [false] + open;
    var left, sign := Render(n.left, sub), Span("formula-op", [Text([n.op])]);
    var right := if n.op == '-' then Span(FlipClass(!sub), Render(n.right, !sub)) else Render(n.right, sub);
    var l, r := Print(n.left), Print(n.right);
    RenderShows(n.left, sub, inside);
    if n.op == '-' {
      RenderShows(n.right, !sub, [false] + inside);
      ShowsSpan(FlipClass(!sub), Render(n.right, !sub), inside, r);
    } else {
      RenderShows(n.right, sub, inside);
    }
    PlainText(" ");
    PlainText([n.op]);
    ShowsText(" ", inside, " ");
    ShowsLabel("formula-op", [n.op], inside, [n.op]);
    ShowsBoth(left, [Text(" ")], inside, l, " ");
    ShowsBoth(left + [Text(" ")], sign, inside, l + " ", [n.op]);
    ShowsBoth(left + [Text(" ")] + sign, [Text(" ")], inside, l + " " + [n.op], " ");
    ShowsBoth(left + [Text(" ")] + sign + [Text(" ")], right, inside, l + " " + [n.op] + " ", r);
    ShowsSpan("formula-node", left + [Text(" ")] + sign + [Text(" ")] + right, open, Print(n));
  }

  lemma {:induction false} CallShows(n: Node, sub: bool, open: seq<bool>)
    requires n.Call? && PlainMarks(n)
    ensures Shows(Render(n, sub), open, Print(n))
    decreases n, 0
  {
    var inside := [false] + open;
    var inline := |n.args| <= 2 && forall a | a in n.args :: IsAtom(a);
    var head, args := Span("formula-call", [Text(Html.EscapeHtml(n.fn))]), RenderArgs(n.args, sub, inline);
    EscapedShows(n.fn);
    ShowsLabel("formula-call", Html.EscapeHtml(n.fn), inside, n.fn);
    PlainText("(");
    ShowsText("(", inside, "(");
    ArgsThenClose(n.args, sub, inline, inside);
    ShowsBoth(head, [Text("(")], inside, n.fn, "(");
    ShowsBoth(head + [Text("(")], args + [Text(")")], inside, n.fn + "(", PrintArgs(n.args) + ")");
    assert head + [Text("(")] + (args + [Text(")")]) == head + [Text("(")] + args + [Text(")")];
    assert n.fn + "(" + (PrintArgs(n.args) + ")") == Print(n);
    ShowsSpan("formula-node", head + [Text("(")] + args + [Text(")")], open, Print(n));
  }

  lemma {:induction false} ArgsThenClose(args: seq<Node>, sub: bool, inline: bool, open: seq<bool>)
    requires open != [] && !open[0] && forall a | a in args :: PlainMarks(a)
    ensures Shows(RenderArgs(args, sub, inline) + [Text(")")], open, PrintArgs(args) + ")")
    decreases args, 2
  {
    forall rest
      ensures Seen(RenderArgs(args, sub, inline) + [Text(")")] + rest, open) == PrintArgs(args) + ")" + Seen(rest, open)
    {
      var tail := [Text(")")] + rest;
      PlainText(")");
      SeenOne(Text(")"), rest, open);
      ArgsShow(args, sub, inline, open, tail);
      assert RenderArgs(args, sub, inline) + [Text(")")] + rest == RenderArgs(args, sub, inline) + tail;
      Html.Associates(PrintArgs(args), ")", Seen(rest, open));
    }
  }

  // An argument list, in front of anything but another line.
  lemma {:induction false} ArgsShow(args: seq<Node>, sub: bool, inline: bool, open: seq<bool>, rest: seq<Tok>)
    requires open != [] && !open[0] && (rest == [] || !rest[0].OpenDiv?) && forall a | a in args :: PlainMarks(a)
    ensures Seen(RenderArgs(args, sub, inline) + rest, open) == PrintArgs(args) + Seen(rest, open)
    decreases args, 1
  {
    if args == [] {
      assert RenderArgs(args, sub, inline) + rest == rest;
    } else {
      var more := RenderArgs(args[1..], sub, inline) + rest;
      ArgsShow(args[1..], sub, inline, open, rest);
      if inline { InlineShows(args, sub, open, more); } else { LineShows(args, sub, open, rest, more); }
      ArgsSplit(args, sub, inline, rest, more);
      FirstThenMore(args, Seen(rest, open));
    }
  }

  lemma FirstThenMore(args: seq<Node>, rest: string)
    requires args != []
    ensures Print(args[0]) + (if |args| == 1 then "" else ", ") + (PrintArgs(args[1..]) + rest) == PrintArgs(args) + rest
  {
  }

  // The tokens of the first argument.
  function FirstArg(args: seq<Node>, sub: bool, inline: bool): seq<Tok>
    requires args != []
  {
    var first := Render(args[0], sub);
    if !inline then [OpenDiv] + first + [Text(","), Close] else if |args| == 1 then first else first + [Text(", ")]
  }

  lemma ArgsSplit(args: seq<Node>, sub: bool, inline: bool, rest: seq<Tok>, more: seq<Tok>)
    requires args != [] && more == RenderArgs(args[1..], sub, inline) + rest
    ensures RenderArgs(args, sub, inline) + rest == FirstArg(args, sub, inline) + more
  {
  }

  lemma {:induction false} InlineShows(args: seq<Node>, sub: bool, open: seq<bool>, more: seq<Tok>)
    requires args != [] && open != [] && !open[0] && PlainMarks(args[0])
    ensures Seen(FirstArg(args, sub, true) + more, open)
         == Print(args[0]) + (if |args| == 1 then "" else ", ") + Seen(more, open)
    decreases args, 0
  {
    RenderShows(args[0], sub, open);
    if |args| > 1 {
      PlainText(", ");
      ShowsText(", ", open, ", ");
      ShowsBoth(Render(args[0], sub), [Text(", ")], open, Print(args[0]), ", ");
    }
  }

  lemma {:induction false} LineShows(args: seq<Node>, sub: bool, open: seq<bool>, rest: seq<Tok>, more: seq<Tok>)
    requires args != [] && PlainMarks(args[0]) && (rest == [] || !rest[0].OpenDiv?)
    requires more == RenderArgs(args[1..], sub, false) + rest
    ensures Seen(FirstArg(args, sub, false) + more, open)
         == Print(args[0]) + (if |args| == 1 then "" else ", ") + Seen(more, open)
    decreases args, 0
  {
    var first := Render(args[0], sub);
    var end := [Text(",")] + ([Close] + more);
    RenderShows(args[0], sub, [true] + open);
    assert FirstArg(args, sub, false) + more == [OpenDiv] + (first + end);
    SeenOne(OpenDiv, first + end, open);
    NextLine(args, sub, rest, more);
    LineEnds(more, open, if |args| == 1 then "" else ", ");
    Html.Associates(Print(args[0]), if |args| == 1 then "" else ", ", Seen(more, open));
  }

  // The comma and the end of a line.
  lemma LineEnds(more: seq<Tok>, open: seq<bool>, joint: string)
    requires Joint([Text(",")] + ([Close] + more)) == joint
    ensures Seen([Text(",")] + ([Close] + more), [true] + open) == joint + Seen(more, open)
  {
    var end, line := [Text(",")] + ([Close] + more), [true] + open;
    assert end[0] == Text(",") && end[1..] == [Close] + more;
    SeenOne(Close, more, line);
    assert line[1..] == open;
  }

  lemma NextLine(args: seq<Node>, sub: bool, rest: seq<Tok>, more: seq<Tok>)
    requires args != [] && (rest == [] || !rest[0].OpenDiv?) && more == RenderArgs(args[1..], sub, false) + rest
    ensures Joint([Text(",")] + ([Close] + more)) == if |args| == 1 then "" else ", "
  {
    var end := [Text(",")] + ([Close] + more);
    assert end[1] == Close && |end| == |more| + 2 && (more != [] ==> end[2] == more[0]);
    if |args| > 1 { assert RenderArgs(args[1..], sub, false)[0] == OpenDiv; }
  }

  // What a rendered formula shows is its print, lines joined.
  lemma ShownIsPrint(n: Node)
    requires PlainMarks(n)
    ensures Seen(ToHtml(n), []) == Print(n)
  {
    RenderShows(n, false, []);
    assert ToHtml(n) + [] == ToHtml(n);
    assert Seen(ToHtml(n) + [], []) == Print(n) + Seen([], []);
  }

  // ------------------------------------------------------------ lines of their own

  predicate NoLines(toks: seq<Tok>) { forall i | 0 <= i < |toks| :: toks[i] != OpenDiv }

  lemma AtomHasNoLines(n: Node, sub: bool)
    requires n.Ref? || n.Num?
    ensures NoLines(Render(n, sub))
  {
  }

  lemma {:induction false} InlineHasNoLines(args: seq<Node>, sub: bool)
    requires forall a | a in args :: a.Ref? || a.Num?
    ensures NoLines(RenderArgs(args, sub, true))
  {
    if args != [] {
      assert args[0] in args;
      AtomHasNoLines(args[0], sub);
      InlineHasNoLines(args[1..], sub);
    }
  }

  // The arguments of a call stay on one line if and only if there are two at most
  // and each is a reference or a number; otherwise each gets a line of its own.
  lemma LinesWhen(fn: string, args: seq<Node>, sub: bool)
    ensures NoLines(Render(Call(fn, args), sub)) <==> |args| <= 2 && forall a | a in args :: a.Ref? || a.Num?
  {
    var inline := |args| <= 2 && forall a | a in args :: IsAtom(a);
    var shown := RenderArgs(args, sub, inline);
    var before := [OpenSpan("formula-node")] + Span("formula-call", [Text(Html.EscapeHtml(fn))]) + [Text("(")];
    var all := Render(Call(fn, args), sub);
    assert all == before + shown + [Text(")")] + [Close];
    if |args| <= 2 && forall a | a in args :: a.Ref? || a.Num? {
      InlineHasNoLines(args, sub);
      assert NoLines(before);
    } else {
      assert shown[0] == OpenDiv;
      assert all[|before|] == shown[0];
    }
  }

  // Every tree of the grammar is written so.
  lemma {:induction false} ShapeIsPlain(n: Node)
    requires FormulaRoundTrip.ExprShape(n)
    ensures PlainMarks(n)
  {
    if n.Op? {
      if n.op != '+' && n.op != '-' { assert FormulaRoundTrip.MulShape(n) && !FormulaRoundTrip.AtomShape(n); }
      FormulaRoundTrip.MulIsExpr(n.left);
      FormulaRoundTrip.MulIsExpr(n.right);
      ShapeIsPlain(n.left);
      ShapeIsPlain(n.right);
    } else {
      assert FormulaRoundTrip.MulShape(n) && FormulaRoundTrip.AtomShape(n);
      match n
      case Num(lexeme) => NumberIsPlain(lexeme);
      case Neg(inner) => FormulaRoundTrip.MulIsExpr(inner); ShapeIsPlain(inner);
      case Paren(body) => ShapeIsPlain(body);
      case Call(_, args) => forall a | a in args ensures PlainMarks(a) { ShapeIsPlain(a); }
      case _ =>
    }
  }

  lemma NumberIsPlain(s: string)
    requires IsNumber(s)
    ensures NoMarkup(s)
  {
    if IsUnsigned(s) {
      UnsignedIsPlain(s);
    } else {
      UnsignedIsPlain(s[1..]);
      assert forall i | 0 < i < |s| :: s[i] == s[1..][i - 1];
    }
  }

  lemma UnsignedIsPlain(s: string)
    requires IsUnsigned(s)
    ensures NoMarkup(s)
  {
    var i: nat, j: nat :| SplitsAt(s, i, j);
    assert forall k | 0 <= k < i :: s[k] == s[..i][k];
    assert forall k | i < k < j :: s[k] == s[i..j][1..][k - i - 1];
    assert j > i ==> s[i] == s[i..j][0];
    ExponentIsPlain(s[j..]);
    assert forall k | j <= k < |s| :: s[k] == s[j..][k - j];
  }

  lemma ExponentIsPlain(s: string)
    requires IsExponent(s)
    ensures NoMarkup(s)
  {
    if s != "" {
      assert forall k | 0 < k < |s| :: s[k] == s[1..][k - 1];
      assert forall k | 1 < k < |s| :: s[k] == s[2..][k - 2];
    }
  }
}
