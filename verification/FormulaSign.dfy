// The sign a rendered formula gives each component reference
// (ui-assets/formula-ast.js, formulaToHtml). The renderer wraps a subtree only
// where its sign flips; a reader that takes the innermost open wrapper around a
// reference learns whether the reference is added or subtracted.
module FormulaSign {
  import opened Decimal
  import opened FormulaAst
  import Html

  datatype Tok =
    | OpenSpan(cls: string)
    | OpenRef(id: nat)   // the reference's own span
    | OpenDiv
    | Close              // ends the innermost open element
    | Text(text: string)

  // ------------------------------------------------------------- rendering

  function FlipClass(sub: bool): string {
    if sub then "formula-subtracted" else "formula-unsubtracted"
  }

  function Span(cls: string, inner: seq<Tok>): seq<Tok> {
    [OpenSpan(cls)] + inner + [Close]
  }

  predicate IsAtom(n: Node) {
    n.Ref? || n.Num?
  }

  function Render(n: Node, sub: bool): seq<Tok> {
    match n
    case Ref(id) => [OpenRef(id), Text("#" + Digits(id)), Close]
    case Num(lexeme) => Span("formula-num", [Text(lexeme)])
    case Absent => Span("formula-num", [Text("None")])
    case Ident(name) => Span("formula-ident", [Text(Html.EscapeHtml(name))])
    case Paren(body) => Span("formula-node", [Text("(")] + Render(body, sub) + [Text(")")])
    case Neg(inner) =>
      Span("formula-node", Span("formula-op", [Text("-")]) + Span(FlipClass(!sub), Render(inner, !sub)))
    case Op(op, left, right) =>
      Span("formula-node",
           Render(left, sub) + [Text(" ")] + Span("formula-op", [Text([op])]) + [Text(" ")]
           + if op == '-' then Span(FlipClass(!sub), Render(right, !sub)) else Render(right, sub))
    case Call(fn, args) =>
      var inline := |args| <= 2 && forall a | a in args :: IsAtom(a);
      Span("formula-node",
           Span("formula-call", [Text(Html.EscapeHtml(fn))]) + [Text("(")]
           + RenderArgs(args, sub, inline) + [Text(")")])
    case Unknown(text) => Span("formula-raw", [Text(Html.EscapeHtml(text))])
  }

  // Joined by commas when they stay on one line, else one block each.
  function RenderArgs(args: seq<Node>, sub: bool, inline: bool): seq<Tok> {
    if args == [] then []
    else
      var first := Render(args[0], sub);
      (if !inline then [OpenDiv] + first + [Text(","), Close]
       else if |args| == 1 then first
       else first + [Text(", ")])
      + RenderArgs(args[1..], sub, inline)
  }

  function ToHtml(n: Node): seq<Tok> {
    Render(n, false)
  }

  // --------------------------------------------------------------- reading

  // An open element: a flip wrapper with the sign it names, or any other.
  datatype Frame = Flip(sub: bool) | Plain

  function FrameOf(cls: string): Frame {
    if cls == "formula-subtracted" then Flip(true)
    else if cls == "formula-unsubtracted" then Flip(false)
    else Plain
  }

  // The sign the innermost flip wrapper names; added when there is none.
  function Innermost(open: seq<Frame>): bool {
    if open == [] then false
    else if open[0].Flip? then open[0].sub
    else Innermost(open[1..])
  }

  // Every reference in `toks` with the sign read off the elements open around
  // it, in order.
  function Read(toks: seq<Tok>, open: seq<Frame>): seq<(nat, bool)> {
    if toks == [] then []
    else
      match toks[0]
      case OpenSpan(cls) => Read(toks[1..], [FrameOf(cls)] + open)
      case OpenRef(id) => [(id, Innermost(open))] + Read(toks[1..], [Plain] + open)
      case OpenDiv => Read(toks[1..], [Plain] + open)
      case Close => Read(toks[1..], if open == [] then [] else open[1..])
      case Text(_) => Read(toks[1..], open)
  }

  // The references of a tree, each with its sign by parity: true when an odd
  // number of negations and right operands of `-` stand above it.
  function Signs(n: Node, sub: bool): seq<(nat, bool)> {
    match n
    case Ref(id) => [(id, sub)]
    case Paren(body) => Signs(body, sub)
    case Neg(inner) => Signs(inner, !sub)
    case Op(op, left, right) => Signs(left, sub) + Signs(right, if op == '-' then !sub else sub)
    case Call(_, args) => ArgSigns(args, sub)
    case _ => []
  }

  function ArgSigns(args: seq<Node>, sub: bool): seq<(nat, bool)> {
    if args == [] then [] else Signs(args[0], sub) + ArgSigns(args[1..], sub)
  }

  // One token read on its own, in front of whatever follows.
  lemma {:induction false} ReadOne(t: Tok, rest: seq<Tok>, open: seq<Frame>)
    ensures t.Text? ==> Read([t] + rest, open) == Read(rest, open)
    ensures t.OpenSpan? ==> Read([t] + rest, open) == Read(rest, [FrameOf(t.cls)] + open)
    ensures t.OpenDiv? ==> Read([t] + rest, open) == Read(rest, [Plain] + open)
    ensures t.Close? && open != [] ==> Read([t] + rest, open) == Read(rest, open[1..])
    ensures t.OpenRef? ==> Read([t] + rest, open) == [(t.id, Innermost(open))] + Read(rest, [Plain] + open)
  {
    assert ([t] + rest)[1..] == rest;
  }

  // `part` yields `found` under `open` and leaves the open elements as they were.
  ghost predicate Yields(part: seq<Tok>, open: seq<Frame>, found: seq<(nat, bool)>) {
    forall rest {:trigger Read(part + rest, open)} :: Read(part + rest, open) == found + Read(rest, open)
  }

  lemma {:induction false} YieldsText(text: string, open: seq<Frame>)
    ensures Yields([Text(text)], open, [])
  {
    forall rest ensures Read([Text(text)] + rest, open) == [] + Read(rest, open) {
      ReadOne(Text(text), rest, open);
    }
  }

  lemma {:induction false} YieldsBoth(a: seq<Tok>, b: seq<Tok>, open: seq<Frame>, x: seq<(nat, bool)>, y: seq<(nat, bool)>)
    requires Yields(a, open, x) && Yields(b, open, y)
    ensures Yields(a + b, open, x + y)
  {
    forall rest ensures Read(a + b + rest, open) == x + y + Read(rest, open) {
      assert a + b + rest == a + (b + rest);
      assert x + (y + Read(rest, open)) == x + y + Read(rest, open);
    }
  }

  lemma {:induction false} YieldsInside(first: Tok, frame: Frame, inner: seq<Tok>, open: seq<Frame>, found: seq<(nat, bool)>)
    requires (first == OpenDiv && frame == Plain) || (first.OpenSpan? && frame == FrameOf(first.cls))
    requires Yields(inner, [frame] + open, found)
    ensures Yields([first] + inner + [Close], open, found)
  {
    forall rest ensures Read([first] + inner + [Close] + rest, open) == found + Read(rest, open) {
      assert [first] + inner + [Close] + rest == [first] + (inner + ([Close] + rest));
      ReadOne(first, inner + ([Close] + rest), open);
      assert Read(inner + ([Close] + rest), [frame] + open) == found + Read([Close] + rest, [frame] + open);
      ReadOne(Close, rest, [frame] + open);
      assert ([frame] + open)[1..] == open;
    }
  }

  lemma {:induction false} YieldsSpan(cls: string, inner: seq<Tok>, open: seq<Frame>, found: seq<(nat, bool)>)
    requires Yields(inner, [FrameOf(cls)] + open, found)
    ensures Yields(Span(cls, inner), open, found)
  {
    YieldsInside(OpenSpan(cls), FrameOf(cls), inner, open, found);
  }

  lemma {:induction false} YieldsLabel(cls: string, text: string, open: seq<Frame>)
    ensures Yields(Span(cls, [Text(text)]), open, [])
  {
    YieldsText(text, [FrameOf(cls)] + open);
    YieldsSpan(cls, [Text(text)], open, []);
  }

  lemma {:induction false} YieldsRef(id: nat, open: seq<Frame>)
    ensures Yields([OpenRef(id), Text("#" + Digits(id)), Close], open, [(id, Innermost(open))])
  {
    forall rest ensures Read([OpenRef(id), Text("#" + Digits(id)), Close] + rest, open) == [(id, Innermost(open))] + Read(rest, open) {
      assert [OpenRef(id), Text("#" + Digits(id)), Close] + rest == [OpenRef(id)] + ([Text("#" + Digits(id))] + ([Close] + rest));
      ReadOne(OpenRef(id), [Text("#" + Digits(id))] + ([Close] + rest), open);
      ReadOne(Text("#" + Digits(id)), [Close] + rest, [Plain] + open);
      ReadOne(Close, rest, [Plain] + open);
      assert ([Plain] + open)[1..] == open;
    }
  }

  lemma {:induction false} InnermostUnder(open: seq<Frame>, sub: bool)
    ensures Innermost([FrameOf("formula-node")] + open) == Innermost(open)
    ensures Innermost([Plain] + open) == Innermost(open)
    ensures Innermost([FrameOf(FlipClass(sub))] + open) == sub
  {
    assert ([Plain] + open)[1..] == open;
  }

  lemma {:induction false} FlipYields(n: Node, sub: bool, open: seq<Frame>)
    ensures Yields(Span(FlipClass(sub), Render(n, sub)), open, Signs(n, sub))
    decreases n, 2
  {
    InnermostUnder(open, sub);
    RenderYields(n, sub, [FrameOf(FlipClass(sub))] + open);
    YieldsSpan(FlipClass(sub), Render(n, sub), open, Signs(n, sub));
  }

  lemma {:induction false} RenderYields(n: Node, sub: bool, open: seq<Frame>)
    requires Innermost(open) == sub
    ensures Yields(Render(n, sub), open, Signs(n, sub))
    decreases n, 1
  {
    match n
    case Ref(id) => YieldsRef(id, open);
    case Num(lexeme) => YieldsLabel("formula-num", lexeme, open);
    case Absent => YieldsLabel("formula-num", "None", open);
    case Ident(name) => YieldsLabel("formula-ident", Html.EscapeHtml(name), open);
    case Unknown(text) => YieldsLabel("formula-raw", Html.EscapeHtml(text), open);
    case Paren(body) => ParenYields(n, sub, open);
    case Neg(inner) => NegYields(n, sub, open);
    case Op(_, _, _) => OpYields(n, sub, open);
    case Call(_, _) => CallYields(n, sub, open);
  }

  lemma {:induction false} ParenYields(n: Node, sub: bool, open: seq<Frame>)
    requires n.Paren? && Innermost(open) == sub
    ensures Yields(Render(n, sub), open, Signs(n, sub))
    decreases n, 0
  {
    var inside := [FrameOf("formula-node")] + open;
    InnermostUnder(open, sub);
    var found := Signs(n.body, sub);
    RenderYields(n.body, sub, inside);
    YieldsText("(", inside);
    YieldsText(")", inside);
    YieldsBoth([Text("(")], Render(n.body, sub), inside, [], found);
    YieldsBoth([Text("(")] + Render(n.body, sub), [Text(")")], inside, [] + found, []);
    assert [] + found + [] == found;
    YieldsSpan("formula-node", [Text("(")] + Render(n.body, sub) + [Text(")")], open, found);
  }

  lemma {:induction false} NegYields(n: Node, sub: bool, open: seq<Frame>)
    requires n.Neg? && Innermost(open) == sub
    ensures Yields(Render(n, sub), open, Signs(n, sub))
    decreases n, 0
  {
    var inside := [FrameOf("formula-node")] + open;
    var found := Signs(n.inner, !sub);
    var minus := Span("formula-op", [Text("-")]);
    var operand := Span(FlipClass(!sub), Render(n.inner, !sub));
    YieldsLabel("formula-op", "-", inside);
    FlipYields(n.inner, !sub, inside);
    YieldsBoth(minus, operand, inside, [], found);
    assert [] + found == found;
    YieldsSpan("formula-node", minus + operand, open, found);
  }

  lemma {:induction false} OpYields(n: Node, sub: bool, open: seq<Frame>)
    requires n.Op? && Innermost(open) == sub
    ensures Yields(Render(n, sub), open, Signs(n, sub))
    decreases n, 0
  {
    var inside := [FrameOf("formula-node")] + open;
    InnermostUnder(open, sub);
    var left, sign := Render(n.left, sub), Span("formula-op", [Text([n.op])]);
    var right := if n.op == '-' then Span(FlipClass(!sub), Render(n.right, !sub)) else Render(n.right, sub);
    var l, r := Signs(n.left, sub), Signs(n.right, if n.op == '-' then !sub else sub);
    RenderYields(n.left, sub, inside);
    if n.op == '-' { FlipYields(n.right, !sub, inside); } else { RenderYields(n.right, sub, inside); }
    YieldsText(" ", inside);
    YieldsLabel("formula-op", [n.op], inside);
    YieldsBoth(left, [Text(" ")], inside, l, []);
    YieldsBoth(left + [Text(" ")], sign, inside, l + [], []);
    YieldsBoth(left + [Text(" ")] + sign, [Text(" ")], inside, l + [] + [], []);
    YieldsBoth(left + [Text(" ")] + sign + [Text(" ")], right, inside, l + [] + [] + [], r);
    assert l + [] + [] + [] + r == l + r;
    YieldsSpan("formula-node", left + [Text(" ")] + sign + [Text(" ")] + right, open, l + r);
  }

  lemma {:induction false} CallYields(n: Node, sub: bool, open: seq<Frame>)
    requires n.Call? && Innermost(open) == sub
    ensures Yields(Render(n, sub), open, Signs(n, sub))
    decreases n, 0
  {
    var inside := [FrameOf("formula-node")] + open;
    InnermostUnder(open, sub);
    var inline := |n.args| <= 2 && forall a | a in n.args :: IsAtom(a);
    var head, args := Span("formula-call", [Text(Html.EscapeHtml(n.fn))]), RenderArgs(n.args, sub, inline);
    var found := ArgSigns(n.args, sub);
    YieldsLabel("formula-call", Html.EscapeHtml(n.fn), inside);
    YieldsText("(", inside);
    YieldsText(")", inside);
    ArgsYield(n.args, sub, inline, inside);
    YieldsBoth(head, [Text("(")], inside, [], []);
    YieldsBoth(head + [Text("(")], args, inside, [] + [], found);
    YieldsBoth(head + [Text("(")] + args, [Text(")")], inside, [] + [] + found, []);
    assert [] + [] + found + [] == found;
    YieldsSpan("formula-node", head + [Text("(")] + args + [Text(")")], open, found);
  }

  lemma {:induction false} ArgsYield(args: seq<Node>, sub: bool, inline: bool, open: seq<Frame>)
    requires Innermost(open) == sub
    ensures Yields(RenderArgs(args, sub, inline), open, ArgSigns(args, sub))
    decreases args, 0
  {
    if args != [] {
      var one, more := Signs(args[0], sub), ArgSigns(args[1..], sub);
      var first := Render(args[0], sub);
      ArgsYield(args[1..], sub, inline, open);
      var shown: seq<Tok>;
      if !inline {
        var block := [Plain] + open;
        InnermostUnder(open, sub);
        RenderYields(args[0], sub, block);
        YieldsText(",", block);
        YieldsBoth(first, [Text(",")], block, one, []);
        YieldsInside(OpenDiv, Plain, first + [Text(",")], open, one + []);
        shown := [OpenDiv] + first + [Text(","), Close];
        assert shown == [OpenDiv] + (first + [Text(",")]) + [Close];
      } else {
        RenderYields(args[0], sub, open);
        YieldsText(", ", open);
        YieldsBoth(first, [Text(", ")], open, one, []);
        shown := if |args| == 1 then first else first + [Text(", ")];
      }
      assert one + [] == one;
      YieldsBoth(shown, RenderArgs(args[1..], sub, inline), open, one, more);
      assert RenderArgs(args, sub, inline) == shown + RenderArgs(args[1..], sub, inline);
    } else {
      forall rest ensures Read([] + rest, open) == [] + Read(rest, open) {
        assert [] + rest == rest;
      }
    }
  }

  // The innermost wrapper around each rendered reference names its parity.
  lemma WrappersShowParity(n: Node)
    ensures Read(ToHtml(n), []) == Signs(n, false)
  {
    RenderYields(n, false, []);
    assert ToHtml(n) + [] == ToHtml(n);
    assert Read(ToHtml(n) + [], []) == Signs(n, false) + Read([], []);
  }

  // ------------------------------------------------------- what signs mean

  // A reading, or none when the component has nothing to report.
  datatype Reading = Gone | Here(value: real)

  // The formulas whose references have one direction each.
  predicate Signed(n: Node) {
    match n
    case Ref(_) => true
    case Num(_) => true
    case Absent => true
    case Paren(body) => Signed(body)
    case Neg(inner) => Signed(inner)
    case Op(op, left, right) => (op == '+' || op == '-') && Signed(left) && Signed(right)
    case Call(fn, args) => fn in {"MAX", "MIN", "COALESCE"} && forall a | a in args :: Signed(a)
    case _ => false
  }

  // How a formula is evaluated: what a number's text stands for, and whether
  // MAX and MIN pass over a missing argument or are missing with it.
  datatype Rules = Rules(number: string -> real, skipMissing: bool)

  function RefCount(n: Node): nat {
    match n
    case Ref(_) => 1
    case Paren(body) => RefCount(body)
    case Neg(inner) => RefCount(inner)
    case Op(_, left, right) => RefCount(left) + RefCount(right)
    case Call(_, args) => ArgRefCount(args)
    case _ => 0
  }

  function ArgRefCount(args: seq<Node>): nat {
    if args == [] then 0 else RefCount(args[0]) + ArgRefCount(args[1..])
  }

  // The value of `n` when its references, in the order they are written, read
  // `env`. Each occurrence has its own reading.
  function Eval(r: Rules, n: Node, env: seq<Reading>): Reading
    requires Signed(n) && |env| == RefCount(n)
    decreases n
  {
    match n
    case Ref(_) => env[0]
    case Num(lexeme) => Here(r.number(lexeme))
    case Absent => Gone
    case Paren(body) => Eval(r, body, env)
    case Neg(inner) => Negate(Eval(r, inner, env))
    case Op(op, left, right) =>
      var k := RefCount(left);
      Combine(op, Eval(r, left, env[..k]), Eval(r, right, env[k..]))
    case Call(fn, args) => EvalCall(r, fn, args, env)
  }

  // COALESCE takes its first argument that is there; MAX and MIN fold theirs.
  function EvalCall(r: Rules, fn: string, args: seq<Node>, env: seq<Reading>): Reading
    requires fn in {"MAX", "MIN", "COALESCE"}
    requires (forall a | a in args :: Signed(a)) && |env| == ArgRefCount(args)
    decreases args
  {
    if args == [] then Gone else
      var k := RefCount(args[0]);
      var first := Eval(r, args[0], env[..k]);
      if |args| == 1 then first
      else Pick(r, fn, first, EvalCall(r, fn, args[1..], env[k..]))
  }

  function Negate(a: Reading): Reading {
    if a.Here? then Here(-a.value) else Gone
  }

  function Combine(op: char, a: Reading, b: Reading): Reading {
    if a.Here? && b.Here? then Here(if op == '-' then a.value - b.value else a.value + b.value) else Gone
  }

  function Pick(r: Rules, fn: string, a: Reading, b: Reading): Reading {
    if fn == "COALESCE" then if a.Here? then a else b
    else if a.Gone? then if r.skipMissing then b else Gone
    else if b.Gone? then if r.skipMissing then a else Gone
    else Here(if (fn == "MAX") == (a.value >= b.value) then a.value else b.value)
  }

  // `b` is there when `a` is, and then at least `a`; at most, when `down`.
  predicate Moves(a: Reading, b: Reading, down: bool) {
    a.Here? == b.Here? && (a.Here? ==> if down then b.value <= a.value else a.value <= b.value)
  }

  // Every occurrence moves the way its sign says: added ones up, subtracted
  // ones down.
  ghost predicate MovesAlong(env: seq<Reading>, env': seq<Reading>, signs: seq<(nat, bool)>) {
    && |env| == |env'| == |signs|
    && forall i | 0 <= i < |env| :: Moves(env[i], env'[i], signs[i].1)
  }

  lemma {:induction false} SignCount(n: Node, sub: bool)
    ensures |Signs(n, sub)| == RefCount(n)
  {
    match n
    case Paren(body) => SignCount(body, sub);
    case Neg(inner) => SignCount(inner, !sub);
    case Op(op, left, right) =>
      SignCount(left, sub);
      SignCount(right, if op == '-' then !sub else sub);
    case Call(_, args) => ArgSignCount(args, sub);
    case _ =>
  }

  lemma {:induction false} ArgSignCount(args: seq<Node>, sub: bool)
    ensures |ArgSigns(args, sub)| == ArgRefCount(args)
  {
    if args != [] {
      SignCount(args[0], sub);
      ArgSignCount(args[1..], sub);
    }
  }

  lemma MovesSplit(env: seq<Reading>, env': seq<Reading>, x: seq<(nat, bool)>, y: seq<(nat, bool)>)
    requires MovesAlong(env, env', x + y)
    ensures MovesAlong(env[..|x|], env'[..|x|], x) && MovesAlong(env[|x|..], env'[|x|..], y)
  {
    forall i | 0 <= i < |y| ensures Moves(env[|x|..][i], env'[|x|..][i], y[i].1) {
      assert (x + y)[|x| + i] == y[i];
    }
  }

  lemma {:induction false} ValueMoves(r: Rules, n: Node, sub: bool, env: seq<Reading>, env': seq<Reading>)
    requires Signed(n) && |env| == |env'| == RefCount(n)
    requires MovesAlong(env, env', Signs(n, sub))
    ensures Moves(Eval(r, n, env), Eval(r, n, env'), sub)
    decreases n
  {
    match n
    case Paren(body) => ValueMoves(r, body, sub, env, env');
    case Neg(inner) => ValueMoves(r, inner, !sub, env, env');
    case Op(op, left, right) =>
      var flipped := if op == '-' then !sub else sub;
      SignCount(left, sub);
      SignCount(right, flipped);
      MovesSplit(env, env', Signs(left, sub), Signs(right, flipped));
      var k := RefCount(left);
      ValueMoves(r, left, sub, env[..k], env'[..k]);
      ValueMoves(r, right, flipped, env[k..], env'[k..]);
    case Call(fn, args) => CallMoves(r, fn, args, sub, env, env');
    case _ =>
  }

  lemma {:induction false} CallMoves(r: Rules, fn: string, args: seq<Node>, sub: bool, env: seq<Reading>, env': seq<Reading>)
    requires fn in {"MAX", "MIN", "COALESCE"} && forall a | a in args :: Signed(a)
    requires |env| == |env'| == ArgRefCount(args)
    requires MovesAlong(env, env', ArgSigns(args, sub))
    ensures Moves(EvalCall(r, fn, args, env), EvalCall(r, fn, args, env'), sub)
    decreases args
  {
    if args != [] {
      SignCount(args[0], sub);
      ArgSignCount(args[1..], sub);
      MovesSplit(env, env', Signs(args[0], sub), ArgSigns(args[1..], sub));
      var k := RefCount(args[0]);
      ValueMoves(r, args[0], sub, env[..k], env'[..k]);
      CallMoves(r, fn, args[1..], sub, env[k..], env'[k..]);
    }
  }

  // What the wrappers tell the reader is true: move every occurrence the way
  // its innermost wrapper points, and the formula's value does not fall. With
  // one occurrence moved, raising an added one never lowers the value, and
  // raising a subtracted one (read the two readings the other way round) never
  // raises it.
  lemma WrappersTellDirection(r: Rules, n: Node, env: seq<Reading>, env': seq<Reading>)
    requires Signed(n) && |env| == |env'| == RefCount(n)
    requires MovesAlong(env, env', Read(ToHtml(n), []))
    ensures Moves(Eval(r, n, env), Eval(r, n, env'), false)
  {
    WrappersShowParity(n);
    ValueMoves(r, n, false, env, env');
  }

  // ------------------------------------------------------------ exact change

  // Formulas of `+`, `-`, negation and parentheses only.
  predicate Linear(n: Node) {
    match n
    case Ref(_) => true
    case Num(_) => true
    case Paren(body) => Linear(body)
    case Neg(inner) => Linear(inner)
    case Op(op, left, right) => (op == '+' || op == '-') && Linear(left) && Linear(right)
    case _ => false
  }

  ghost predicate AllHere(env: seq<Reading>) {
    forall i | 0 <= i < |env| :: env[i].Here?
  }

  lemma {:induction false} LinearValue(r: Rules, n: Node, env: seq<Reading>)
    requires Linear(n) && Signed(n) && |env| == RefCount(n) && AllHere(env)
    ensures Eval(r, n, env).Here?
  {
    match n
    case Paren(body) => LinearValue(r, body, env);
    case Neg(inner) => LinearValue(r, inner, env);
    case Op(_, left, right) =>
      LinearValue(r, left, env[..RefCount(left)]);
      LinearValue(r, right, env[RefCount(left)..]);
    case _ =>
  }

  // There the sign is exact: raising occurrence `i` by `d` adds `d` to the value
  // when its wrapper says added, and takes `d` from it when it says subtracted.
  lemma {:induction false} LinearChange(r: Rules, n: Node, sub: bool, env: seq<Reading>, i: nat, d: real)
    requires Linear(n) && Signed(n) && |env| == RefCount(n) == |Signs(n, sub)| && AllHere(env) && i < |env|
    ensures Eval(r, n, env).Here? && Eval(r, n, env[i := Here(env[i].value + d)]).Here?
    ensures Eval(r, n, env[i := Here(env[i].value + d)]).value - Eval(r, n, env).value
            == if Signs(n, sub)[i].1 == sub then d else -d
  {
    var env' := env[i := Here(env[i].value + d)];
    match n
    case Paren(body) => LinearChange(r, body, sub, env, i, d);
    case Neg(inner) => LinearChange(r, inner, !sub, env, i, d);
    case Op(op, left, right) =>
      var k := RefCount(left);
      var flipped := if op == '-' then !sub else sub;
      SignCount(left, sub);
      SignCount(right, flipped);
      LinearValue(r, left, env[..k]);
      LinearValue(r, right, env[k..]);
      if i < k {
        LinearChange(r, left, sub, env[..k], i, d);
        assert env'[..k] == env[..k][i := Here(env[i].value + d)] && env'[k..] == env[k..];
      } else {
        LinearChange(r, right, flipped, env[k..], i - k, d);
        assert env'[..k] == env[..k] && env'[k..] == env[k..][i - k := Here(env[i].value + d)];
      }
    case _ =>
  }

  lemma WrappersTellChange(r: Rules, n: Node, env: seq<Reading>, i: nat, d: real)
    requires Linear(n) && Signed(n) && |env| == RefCount(n) && AllHere(env) && i < |env|
    ensures |Read(ToHtml(n), [])| == |env|
    ensures var was, now := Eval(r, n, env), Eval(r, n, env[i := Here(env[i].value + d)]);
            was.Here? && now.Here?
            && now.value - was.value == if Read(ToHtml(n), [])[i].1 then -d else d
  {
    WrappersShowParity(n);
    SignCount(n, false);
    LinearChange(r, n, false, env, i, d);
  }
}
