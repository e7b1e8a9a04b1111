// Parsing what the formula printer prints (ui-assets/formula-ast.js): the parser
// undoes the printer on every tree of the grammar except where a negation stands
// straight over a literal, and there the two differ by exactly that fold.
module FormulaRoundTrip {
  import opened WhiteSpace
  import opened Decimal
  import opened FormulaAst
  import opened FormulaLexemes

  // ---------------------------------------------------------- tree grammar

  predicate IsName(s: string) { IsWord(s) && s != "None" }

  // The trees the grammar can produce: operators lean left, a right operand
  // binds tighter than its operator, and only an atom stands under a negation.
  ghost predicate ExprShape(n: Node)
    decreases n, 2
  {
    if n.Op? && (n.op == '+' || n.op == '-') then ExprShape(n.left) && MulShape(n.right)
    else MulShape(n)
  }

  ghost predicate MulShape(n: Node)
    decreases n, 1
  {
    if n.Op? && (n.op == '*' || n.op == '/') then MulShape(n.left) && AtomShape(n.right)
    else AtomShape(n)
  }

  ghost predicate AtomShape(n: Node)
    decreases n, 0
  {
    match n
    case Ref(_) => true
    case Num(lexeme) => IsNumber(lexeme)
    case Absent => true
    case Ident(name) => IsName(name)
    case Neg(inner) => AtomShape(inner)
    case Paren(body) => ExprShape(body)
    case Op(_, _, _) => false
    case Call(fn, args) => IsName(fn) && forall a | a in args :: ExprShape(a)
    case Unknown(_) => false
  }

  predicate IsPlainNumber(n: Node) {
    n.Num? && (n.lexeme == "" || n.lexeme[0] != '-')
  }

  // No negation is applied straight to a literal that has no sign of its own.
  predicate NoNegatedLiteral(n: Node) {
    match n
    case Neg(inner) => !IsPlainNumber(inner) && NoNegatedLiteral(inner)
    case Paren(body) => NoNegatedLiteral(body)
    case Op(_, left, right) => NoNegatedLiteral(left) && NoNegatedLiteral(right)
    case Call(_, args) => forall a | a in args :: NoNegatedLiteral(a)
    case _ => true
  }

  // The tree with each such negation folded into its literal.
  function Fold(n: Node): Node {
    match n
    case Neg(inner) => if IsPlainNumber(inner) then Num("-" + inner.lexeme) else Neg(Fold(inner))
    case Paren(body) => Paren(Fold(body))
    case Op(op, left, right) => Op(op, Fold(left), Fold(right))
    case Call(fn, args) => Call(fn, seq(|args|, i requires 0 <= i < |args| => Fold(args[i])))
    case _ => n
  }

  lemma {:induction false} FoldFixes(n: Node)
    ensures Fold(n) == n <==> NoNegatedLiteral(n)
  {
    match n
    case Neg(inner) => FoldFixes(inner);
    case Paren(body) => FoldFixes(body);
    case Op(_, left, right) => FoldFixes(left); FoldFixes(right);
    case Call(_, args) =>
      forall a | a in args ensures Fold(a) == a <==> NoNegatedLiteral(a) { FoldFixes(a); }
      var folded := Fold(n).args;
      if NoNegatedLiteral(n) {
        assert forall i | 0 <= i < |args| :: args[i] in args && folded[i] == args[i];
        assert folded == args;
      } else {
        var i :| 0 <= i < |args| && !NoNegatedLiteral(args[i]);
        assert folded[i] != args[i];
      }
    case _ =>
  }

  // ------------------------------------------------------------ round trip

  // What may follow a printed subtree: nothing, the end of a list or an
  // argument, or a spaced operator.
  predicate Delimited(rest: string) {
    || rest == "" || rest[0] == ')' || rest[0] == ','
    || (|rest| > 1 && rest[0] == ' ' && rest[1] in {'+', '-', '*', '/'})
  }

  lemma {:induction false} SkipWsNone(s: string)
    requires s != "" && !IsSpace(s[0])
    ensures SkipWs(s) == s
  {
  }

  lemma {:induction false} UnsignedAppend(a: string, rest: string)
    requires Delimited(rest)
    ensures MatchUnsigned(a + rest) == MatchUnsigned(a)
  {
    var d := DigitRun(a);
    RunOver(a, rest);
    assert (a + rest)[d..] == a[d..] + rest;
    SuffixAppend(a[d..], rest);
  }

  lemma {:induction false} SuffixAppend(a: string, rest: string)
    requires Delimited(rest)
    ensures SuffixLength(a + rest) == SuffixLength(a)
  {
    var f := FractionLength(a);
    FractionAppend(a, rest);
    assert (a + rest)[f..] == a[f..] + rest;
    ExponentAppend(a[f..], rest);
  }

  lemma {:induction false} FractionAppend(a: string, rest: string)
    requires Delimited(rest)
    ensures FractionLength(a + rest) == FractionLength(a)
  {
    if |a| >= 2 && a[0] == '.' && IsDigit(a[1]) {
      assert (a + rest)[1..] == a[1..] + rest;
      RunOver(a[1..], rest);
    } else if a == "" {
      assert a + rest == rest;
    }
  }

  lemma {:induction false} ExponentAppend(a: string, rest: string)
    requires Delimited(rest)
    ensures ExponentLength(a + rest) == ExponentLength(a)
  {
    if a == "" {
      assert a + rest == rest;
    } else if a[0] == 'e' || a[0] == 'E' {
      var k := if |a| > 1 && (a[1] == '-' || a[1] == '+') then 2 else 1;
      assert (a + rest)[k..] == a[k..] + rest;
      RunOver(a[k..], rest);
    }
  }

  // A run of digits does not reach past a delimiter.
  lemma {:induction false} RunOver(a: string, rest: string)
    requires Delimited(rest)
    ensures DigitRun(a + rest) == DigitRun(a)
  {
    if a == "" {
      assert a + rest == rest;
    } else {
      assert (a + rest)[1..] == a[1..] + rest;
      RunOver(a[1..], rest);
    }
  }

  lemma {:induction false} IdentRunAppend(a: string, rest: string)
    requires Delimited(rest) || (rest != "" && rest[0] == '(')
    ensures IdentRun(a + rest) == IdentRun(a)
  {
    if a == "" {
      assert a + rest == rest;
    } else {
      assert (a + rest)[1..] == a[1..] + rest;
      IdentRunAppend(a[1..], rest);
    }
  }

  lemma NumberStart(s: string)
    requires IsNumber(s)
    ensures s != "" && (s[0] == '-' || IsDigit(s[0]))
  {
    NumberIs(s);
  }

  // Every printed tree starts with a character that is no space, and starts
  // with a digit only when it is a bare literal.
  lemma {:induction false} PrintStart(n: Node)
    requires ExprShape(n)
    ensures Print(n) != "" && !IsSpace(Print(n)[0]) && Print(n)[0] != ')'
    ensures AtomShape(n) && IsDigit(Print(n)[0]) ==> IsPlainNumber(n)
  {
    if n.Op? {
      if n.op != '+' && n.op != '-' {
        assert MulShape(n);
        assert n.op == '*' || n.op == '/' || AtomShape(n);
      }
      MulIsExpr(n.left);
      PrintStart(n.left);
    } else {
      assert MulShape(n) && AtomShape(n);
      if n.Num? { NumberStart(n.lexeme); }
    }
  }

  lemma {:induction false} MulIsExpr(n: Node)
    ensures AtomShape(n) ==> MulShape(n)
    ensures MulShape(n) ==> ExprShape(n)
  {
    if n.Op? {
      assert !AtomShape(n);
      if n.op == '+' || n.op == '-' { assert !MulShape(n); }
    } else {
      assert MulShape(n) == AtomShape(n);
      assert ExprShape(n) == MulShape(n);
    }
  }

  lemma {:induction false} LeadingSpace(s: string)
    ensures ParseAtom(" " + s) == ParseAtom(s)
    ensures ParseMul(" " + s) == ParseMul(s)
    ensures ParseExpr(" " + s) == ParseExpr(s)
  {
    assert (" " + s)[1..] == s;
    assert SkipWs(" " + s) == SkipWs(s);
  }

  // The loops look past spaces first, so only the text after them matters.
  lemma {:induction false} TailsSkip(n: Node, a: string, b: string)
    requires SkipWs(a) == SkipWs(b)
    ensures MulTail(n, a) == MulTail(n, b)
    ensures ExprTail(n, a) == ExprTail(n, b)
  {
  }

  predicate StopsMul(rest: string) {
    var u := SkipWs(rest);
    u == "" || (u[0] != '*' && u[0] != '/')
  }

  lemma {:induction false} AtomBack(n: Node, rest: string)
    requires AtomShape(n) && Delimited(rest)
    ensures ParseAtom(Print(n) + rest).0 == Fold(n)
    ensures SkipWs(ParseAtom(Print(n) + rest).1) == SkipWs(rest)
    decreases n, 0, 1
  {
    match n
    case Ref(id) => RefBack(id, rest);
    case Num(lexeme) => NumberBack(lexeme, rest);
    case Absent => WordBack("None", rest);
    case Ident(name) => WordIs(name); WordBack(name, rest);
    case Neg(inner) => NegBack(n, rest);
    case Paren(body) =>
      ParenBack(n, rest);
    case Call(fn, args) => CallBack(n, rest);
  }

  lemma {:induction false} RefBack(id: nat, rest: string)
    requires Delimited(rest)
    ensures ParseAtom("#" + Digits(id) + rest) == (Ref(id), rest)
  {
    var s := "#" + Digits(id) + rest;
    var u := Digits(id) + rest;
    assert s[1..] == u;
    assert IsDigit(Digits(id)[0]);
    SkipWsNone(u);
    DigitRunAppend(Digits(id), rest);
    assert u[..|Digits(id)|] == Digits(id) && u[|Digits(id)|..] == rest;
    ValueOfDigits(id);
  }

  lemma {:induction false} NumberAppend(a: string, rest: string)
    requires Delimited(rest)
    ensures MatchNumber(a + rest) == MatchNumber(a)
  {
    if a == "" {
      assert a + rest == rest;
      UnsignedAppend("", rest);
    } else if a[0] == '-' {
      assert (a + rest)[1..] == a[1..] + rest;
      UnsignedAppend(a[1..], rest);
    } else {
      UnsignedAppend(a, rest);
    }
  }

  lemma {:induction false} NumberBack(lexeme: string, rest: string)
    requires IsNumber(lexeme) && Delimited(rest)
    ensures ParseAtom(lexeme + rest) == (Num(lexeme), rest)
  {
    var s := lexeme + rest;
    NumberIs(lexeme);
    NumberAppend(lexeme, rest);
    AtomNumber(s);
    assert s[..|lexeme|] == lexeme && s[|lexeme|..] == rest;
  }

  // One step of the atom rule for each way an atom can start.
  lemma {:induction false} AtomNumber(t: string)
    requires t != "" && MatchNumber(t) > 0
    ensures ParseAtom(t) == (Num(t[..MatchNumber(t)]), t[MatchNumber(t)..])
  {
    SkipWsNone(t);
    assert t[0] != '(' && t[0] != '#';
    assert AtomAt(t) == (Num(t[..MatchNumber(t)]), t[MatchNumber(t)..]);
  }

  lemma {:induction false} AtomWord(t: string)
    requires t != "" && IsLetter(t[0])
    ensures ParseAtom(t) == ParseWord(t)
  {
    assert SkipWs(t) == t;
  }

  lemma {:induction false} AtomParen(s: string)
    ensures ParseAtom("(" + s) == (Paren(ParseExpr(s).0), Close(ParseExpr(s).1))
  {
    var t := "(" + s;
    assert SkipWs(t) == t && t[1..] == s;
    assert AtomAt(t) == ParseParen(t);
  }

  lemma {:induction false} AtomNeg(s: string)
    requires MatchNumber("-" + s) == 0
    ensures ParseAtom("-" + s) == (Neg(ParseAtom(s).0), ParseAtom(s).1)
  {
    var t := "-" + s;
    assert SkipWs(t) == t && t[1..] == s;
  }

  lemma {:induction false} MulStep(n: Node, op: char, s: string)
    requires op == '*' || op == '/'
    ensures MulTail(n, " " + [op] + " " + s) == MulTail(Op(op, n, ParseAtom(s).0), ParseAtom(s).1)
  {
    var t := [op] + " " + s;
    SkipOne(t);
    assert " " + [op] + " " + s == " " + t;
    assert t[1..] == " " + s;
    LeadingSpace(s);
  }

  lemma {:induction false} MulStop(n: Node, s: string)
    requires StopsMul(s)
    ensures MulTail(n, s) == (n, SkipWs(s))
  {
  }

  lemma {:induction false} ExprStep(n: Node, op: char, s: string)
    requires op == '+' || op == '-'
    ensures ExprTail(n, " " + [op] + " " + s) == ExprTail(Op(op, n, ParseMul(s).0), ParseMul(s).1)
  {
    var t := [op] + " " + s;
    SkipOne(t);
    assert " " + [op] + " " + s == " " + t;
    assert t[1..] == " " + s;
    LeadingSpace(s);
  }

  lemma {:induction false} SumFollows(op: char, s: string)
    requires op == '+' || op == '-'
    ensures Delimited(" " + [op] + " " + s) && StopsMul(" " + [op] + " " + s)
  {
    assert " " + [op] + " " + s == " " + ([op] + " " + s);
    SkipOne([op] + " " + s);
  }

  lemma {:induction false} SkipOne(t: string)
    requires t != "" && !IsSpace(t[0])
    ensures SkipWs(" " + t) == t
  {
    assert (" " + t)[1..] == t;
  }

  // A word is read whole: at its end, `None` and a plain name stand for
  // themselves.
  lemma {:induction false} WordSplit(name: string, rest: string)
    requires name != "" && MatchIdent(name) == |name|
    requires Delimited(rest) || (rest != "" && rest[0] == '(')
    ensures var s := name + rest;
            MatchIdent(s) == |name| && s[..|name|] == name && s[|name|..] == rest
            && IsLetter(s[0])
  {
    var s := name + rest;
    assert s[1..] == name[1..] + rest;
    IdentRunAppend(name[1..], rest);
  }

  lemma {:induction false} WordBack(name: string, rest: string)
    requires name != "" && MatchIdent(name) == |name| && Delimited(rest)
    ensures ParseAtom(name + rest) == (if name == "None" then (Absent, rest) else (Ident(name), SkipWs(rest)))
  {
    WordSplit(name, rest);
    AtomWord(name + rest);
    NoParenAfter(rest);
    WordAlone(name + rest);
  }

  lemma {:induction false} WordAlone(t: string)
    requires MatchIdent(t) > 0
    requires var u := SkipWs(t[MatchIdent(t)..]); u == "" || u[0] != '('
    ensures var name, after := t[..MatchIdent(t)], t[MatchIdent(t)..];
            ParseWord(t) == (if name == "None" then (Absent, after) else (Ident(name), SkipWs(after)))
  {
  }

  lemma {:induction false} NoParenAfter(rest: string)
    requires Delimited(rest)
    ensures var u := SkipWs(rest); u == "" || u[0] != '('
  {
    if rest != "" && rest[0] == ' ' {
      assert rest == " " + rest[1..];
      SkipOne(rest[1..]);
    }
  }

  lemma PlainIsUnsigned(s: string)
    requires IsNumber(s) && (s == "" || s[0] != '-')
    ensures IsUnsigned(s)
  {
    NumberHasText(s);
  }

  lemma {:induction false} NegBack(n: Node, rest: string)
    requires n.Neg? && AtomShape(n.inner) && Delimited(rest)
    ensures ParseAtom(Print(n) + rest).0 == Fold(n)
    ensures SkipWs(ParseAtom(Print(n) + rest).1) == SkipWs(rest)
    decreases n, 0, 0
  {
    var t := Print(n.inner) + rest;
    assert Print(n) + rest == "-" + t;
    if IsPlainNumber(n.inner) {
      var lexeme := n.inner.lexeme;
      assert ("-" + lexeme)[1..] == lexeme;
      PlainIsUnsigned(lexeme);
      NumberBack("-" + lexeme, rest);
      assert ("-" + lexeme) + rest == "-" + t;
    } else {
      MulIsExpr(n.inner);
      PrintStart(n.inner);
      assert t[0] == Print(n.inner)[0];
      assert ("-" + t)[1..] == t;
      AtomNeg(t);
      AtomBack(n.inner, rest);
    }
  }

  lemma {:induction false} ParenBack(n: Node, rest: string)
    requires n.Paren? && ExprShape(n.body) && Delimited(rest)
    ensures ParseAtom(Print(n) + rest) == (Fold(n), rest)
    decreases n, 0, 0
  {
    var inner := Print(n.body) + (")" + rest);
    assert Print(n) + rest == "(" + inner;
    AtomParen(inner);
    ExprStops(n.body, ")" + rest);
    CloseOne(rest);
  }

  lemma {:induction false} CloseOne(rest: string)
    ensures Close(")" + rest) == rest
  {
    SkipWsNone(")" + rest);
    assert (")" + rest)[1..] == rest;
  }

  lemma {:induction false} CallBack(n: Node, rest: string)
    requires n.Call? && AtomShape(n) && Delimited(rest)
    ensures ParseAtom(Print(n) + rest) == (Fold(n), rest)
    decreases n, 0, 0
  {
    var list := PrintArgs(n.args) + (")" + rest);
    var s := n.fn + ("(" + list);
    assert Print(n) + rest == s;
    ArgsStart(n.args, ")" + rest);
    CallOpen(n.fn, list);
    ArgsBack(n.args, ")" + rest);
    assert Fold(n).args == ParseArgs(list).0;
    assert (")" + rest)[1..] == rest;
  }

  lemma {:induction false} WordCall(t: string, list: string)
    requires MatchIdent(t) > 0 && t[MatchIdent(t)..] == "(" + list
    requires t[..MatchIdent(t)] != "None"
    requires list != "" && !IsSpace(list[0])
    ensures var (args, rest) := ParseArgs(list);
            ParseWord(t) == (Call(t[..MatchIdent(t)], args),
                             if rest != "" && rest[0] == ')' then rest[1..] else rest)
  {
    var u := "(" + list;
    SkipWsNone(u);
    assert u[1..] == list;
    SkipWsNone(list);
  }

  lemma {:induction false} CallOpen(fn: string, list: string)
    requires IsName(fn) && list != "" && !IsSpace(list[0])
    ensures var (args, rest) := ParseArgs(list);
            ParseAtom(fn + ("(" + list))
            == (Call(fn, args), if rest != "" && rest[0] == ')' then rest[1..] else rest)
  {
    WordIs(fn);
    WordSplit(fn, "(" + list);
    AtomWord(fn + ("(" + list));
    WordCall(fn + ("(" + list), list);
  }

  lemma {:induction false} ArgsOne(s: string)
    requires s != "" && s[0] != ')'
    requires var u := SkipWs(ParseExpr(s).1); u == "" || u[0] != ','
    ensures ParseArgs(s) == ([ParseExpr(s).0], SkipWs(ParseExpr(s).1))
  {
  }

  lemma {:induction false} ArgsMore(s: string, tail: string)
    requires s != "" && s[0] != ')' && ParseExpr(s).1 == "," + tail
    ensures ParseArgs(s) == ([ParseExpr(s).0] + ParseArgs(tail).0, ParseArgs(tail).1)
  {
    var u := "," + tail;
    SkipWsNone(u);
    assert u[1..] == tail;
  }

  lemma {:induction false} ArgsLeadingSpace(s: string)
    requires s != "" && s[0] != ')'
    ensures ParseArgs(" " + s) == ParseArgs(s)
  {
    LeadingSpace(s);
  }

  lemma {:induction false} ArgsStart(args: seq<Node>, rest: string)
    requires forall a | a in args :: ExprShape(a)
    requires rest != "" && rest[0] == ')'
    ensures var s := PrintArgs(args) + rest; s != "" && !IsSpace(s[0])
    ensures args != [] ==> (PrintArgs(args) + rest)[0] != ')'
  {
    if args == [] {
      assert PrintArgs(args) + rest == rest;
    } else {
      PrintStart(args[0]);
    }
  }

  lemma {:induction false} ArgsBack(args: seq<Node>, rest: string)
    requires forall a | a in args :: ExprShape(a)
    requires rest != "" && rest[0] == ')'
    ensures var r := ParseArgs(PrintArgs(args) + rest);
            r.1 == rest && |r.0| == |args| && forall i | 0 <= i < |args| :: r.0[i] == Fold(args[i])
    decreases args, 0, 0
  {
    var s := PrintArgs(args) + rest;
    ArgsStart(args, rest);
    SkipWsNone(rest);
    if args == [] {
      assert s == rest;
    } else if |args| == 1 {
      ExprStops(args[0], rest);
      ArgsOne(s);
    } else {
      var more := PrintArgs(args[1..]) + rest;
      assert s == Print(args[0]) + ("," + (" " + more));
      ExprStops(args[0], "," + (" " + more));
      ArgsMore(s, " " + more);
      ArgsStart(args[1..], rest);
      ArgsLeadingSpace(more);
      ArgsBack(args[1..], rest);
    }
  }

  lemma {:induction false} PrintedOp(n: Node, rest: string)
    requires n.Op?
    ensures Print(n) + rest == Print(n.left) + (" " + [n.op] + " " + (Print(n.right) + rest))
  {
  }

  lemma {:induction false} MulBack(n: Node, rest: string)
    requires MulShape(n) && Delimited(rest)
    ensures ParseMul(Print(n) + rest) == MulTail(Fold(n), rest)
    decreases n, 1, 0
  {
    if n.Op? && (n.op == '*' || n.op == '/') {
      var right := Print(n.right) + rest;
      var tail := " " + [n.op] + " " + right;
      PrintedOp(n, rest);
      MulBack(n.left, tail);
      MulStep(Fold(n.left), n.op, right);
      AtomBack(n.right, rest);
      TailsSkip(Fold(n), ParseAtom(right).1, rest);
    } else {
      AtomBack(n, rest);
      TailsSkip(Fold(n), ParseAtom(Print(n) + rest).1, rest);
    }
  }

  lemma {:induction false} ExprBack(n: Node, rest: string)
    requires ExprShape(n) && Delimited(rest) && StopsMul(rest)
    ensures ParseExpr(Print(n) + rest) == ExprTail(Fold(n), rest)
    decreases n, 2, 0
  {
    if n.Op? && (n.op == '+' || n.op == '-') {
      var right := Print(n.right) + rest;
      var tail := " " + [n.op] + " " + right;
      PrintedOp(n, rest);
      SumFollows(n.op, right);
      ExprBack(n.left, tail);
      ExprStep(Fold(n.left), n.op, right);
      MulStops(n.right, rest);
      TailsSkip(Fold(n), SkipWs(rest), rest);
    } else {
      MulStops(n, rest);
      TailsSkip(Fold(n), SkipWs(rest), rest);
    }
  }

  lemma {:induction false} MulStops(n: Node, rest: string)
    requires MulShape(n) && Delimited(rest) && StopsMul(rest)
    ensures ParseMul(Print(n) + rest) == (Fold(n), SkipWs(rest))
    ensures SkipWs(SkipWs(rest)) == SkipWs(rest)
    decreases n, 1, 1
  {
    MulBack(n, rest);
    MulStop(Fold(n), rest);
    if SkipWs(rest) != "" { SkipWsNone(SkipWs(rest)); }
  }

  lemma {:induction false} ExprStops(n: Node, rest: string)
    requires ExprShape(n)
    requires rest == "" || rest[0] == ')' || rest[0] == ','
    ensures ParseExpr(Print(n) + rest) == (Fold(n), rest)
    decreases n, 2, 1
  {
    if rest != "" { SkipWsNone(rest); }
    ExprBack(n, rest);
  }

  // The parser undoes the printer up to negated literals, and undoes it exactly
  // on the trees that hold none.
  lemma {:induction false} RoundTrip(n: Node)
    requires ExprShape(n)
    ensures ParseFormula(Print(n)) == Fold(n)
    ensures ParseFormula(Print(n)) == n <==> NoNegatedLiteral(n)
  {
    ExprStops(n, "");
    assert Print(n) + "" == Print(n);
    FoldFixes(n);
  }

  // ------------------------------------------------------- ill-formed texts

  // An atom is not understood exactly where none of the ways to begin one is
  // there; then nothing is taken, and what is left is kept as it is.
  lemma UnknownWhen(s: string)
    ensures ParseAtom(s) == (Unknown(SkipWs(s)), SkipWs(s)) <==> BeginsNothing(SkipWs(s))
  {
    var t := SkipWs(s);
    assert ParseAtom(s) == AtomAt(t);
    if t != "" { AtomCases(t); }
    if MatchIdent(t) > 0 { WordIsKnown(t); }
  }

  lemma AtomCases(t: string)
    requires t != ""
    ensures t[0] == '(' ==> AtomAt(t).0.Paren?
    ensures t[0] == '#' ==> AtomAt(t).0.Ref?
    ensures t[0] == '-' || IsDigit(t[0]) ==> AtomAt(t).0.Num? || AtomAt(t).0.Neg?
    ensures IsLetter(t[0]) ==> AtomAt(t) == ParseWord(t)
  {
  }

  predicate BeginsNothing(t: string) {
    t == "" || !(t[0] == '(' || t[0] == '#' || t[0] == '-' || IsDigit(t[0]) || IsLetter(t[0]))
  }

  lemma WordIsKnown(t: string)
    requires MatchIdent(t) > 0
    ensures !ParseWord(t).0.Unknown?
  {
    var u := SkipWs(t[MatchIdent(t)..]);
    if u != "" && u[0] == '(' { assert CallRest(t[..MatchIdent(t)], u).0.Call?; }
  }

  // A bracket left open is closed by the end of the text.
  lemma OpenBracketCloses(n: Node)
    requires ExprShape(n)
    ensures ParseFormula("(" + Print(n)) == ParseFormula("(" + Print(n) + ")")
  {
    AtomParen(Print(n));
    ExprStops(n, "");
    assert Print(n) + "" == Print(n);
    assert ParseAtom("(" + Print(n)) == (Paren(Fold(n)), "");
    AloneIsExpr("(" + Print(n), Paren(Fold(n)));
    RoundTrip(Paren(n));
    assert Print(Paren(n)) == "(" + Print(n) + ")";
    assert Fold(Paren(n)) == Paren(Fold(n));
  }

  lemma AloneIsExpr(s: string, n: Node)
    requires ParseAtom(s) == (n, "")
    ensures ParseFormula(s) == n
  {
    assert SkipWs("") == "";
    MulStop(n, "");
    assert ParseMul(s) == MulTail(n, "");
    assert ParseExpr(s) == ExprTail(n, "");
  }

  // ------------------------------------------------- the parser's own trees

  predicate HasUnknown(n: Node) {
    match n
    case Neg(inner) => HasUnknown(inner)
    case Paren(body) => HasUnknown(body)
    case Op(_, left, right) => HasUnknown(left) || HasUnknown(right)
    case Call(_, args) => exists a | a in args :: HasUnknown(a)
    case Unknown(_) => true
    case _ => false
  }

  lemma {:induction false} ExprRead(s: string)
    ensures HasUnknown(ParseExpr(s).0) || ExprShape(ParseExpr(s).0)
    decreases |s|, 5
  {
    var (left, rest) := ParseMul(s);
    MulRead(s);
    MulIsExpr(left);
    ExprTailRead(left, rest);
  }

  lemma {:induction false} ExprTailRead(left: Node, s: string)
    requires HasUnknown(left) || ExprShape(left)
    ensures HasUnknown(ExprTail(left, s).0) || ExprShape(ExprTail(left, s).0)
    decreases |s|, 4
  {
    var t := SkipWs(s);
    if t != "" && (t[0] == '+' || t[0] == '-') {
      MulRead(t[1..]);
      ExprTailRead(Op(t[0], left, ParseMul(t[1..]).0), ParseMul(t[1..]).1);
    }
  }

  lemma {:induction false} MulRead(s: string)
    ensures HasUnknown(ParseMul(s).0) || MulShape(ParseMul(s).0)
    decreases |s|, 3
  {
    var (left, rest) := ParseAtom(s);
    AtomRead(s);
    MulIsExpr(left);
    MulTailRead(left, rest);
  }

  lemma {:induction false} MulTailRead(left: Node, s: string)
    requires HasUnknown(left) || MulShape(left)
    ensures HasUnknown(MulTail(left, s).0) || MulShape(MulTail(left, s).0)
    decreases |s|, 2
  {
    var t := SkipWs(s);
    if t != "" && (t[0] == '*' || t[0] == '/') {
      AtomRead(t[1..]);
      MulTailRead(Op(t[0], left, ParseAtom(t[1..]).0), ParseAtom(t[1..]).1);
    }
  }

  lemma {:induction false} AtomRead(s: string)
    ensures HasUnknown(ParseAtom(s).0) || AtomShape(ParseAtom(s).0)
    decreases |s|, 1
  {
    var t := SkipWs(s);
    assert ParseAtom(s) == AtomAt(t);
    if t != "" && t[0] == '(' {
      ExprRead(t[1..]);
      assert AtomAt(t) == ParseParen(t);
    } else if t != "" && t[0] == '#' {
    } else if MatchNumber(t) > 0 {
      NumberTaken(t);
    } else if t != "" && t[0] == '-' {
      AtomRead(t[1..]);
    } else if MatchIdent(t) > 0 {
      WordRead(t);
    }
  }

  lemma {:induction false} WordRead(t: string)
    requires MatchIdent(t) > 0
    ensures HasUnknown(ParseWord(t).0) || AtomShape(ParseWord(t).0)
    decreases |t|, 0
  {
    WordTaken(t);
    var u := SkipWs(t[MatchIdent(t)..]);
    if u != "" && u[0] == '(' {
      ArgsRead(SkipWs(u[1..]));
      if t[..MatchIdent(t)] != "None" {
        assert ParseWord(t) == CallRest(t[..MatchIdent(t)], u);
      }
    }
  }

  lemma {:induction false} ArgsRead(s: string)
    ensures forall a | a in ParseArgs(s).0 :: HasUnknown(a) || ExprShape(a)
    decreases |s|, 6
  {
    if s != "" && s[0] != ')' {
      ExprRead(s);
      var u := SkipWs(ParseExpr(s).1);
      if u != "" && u[0] == ',' {
        ArgsRead(u[1..]);
      }
    }
  }

  lemma {:induction false} FoldPrints(n: Node)
    ensures Print(Fold(n)) == Print(n)
  {
    match n
    case Neg(inner) => FoldPrints(inner);
    case Paren(body) => FoldPrints(body);
    case Op(_, left, right) => FoldPrints(left); FoldPrints(right);
    case Call(_, args) =>
      forall a | a in args ensures Print(Fold(a)) == Print(a) { FoldPrints(a); }
      var folded := Fold(n).args;
      assert forall i | 0 <= i < |args| :: args[i] in args && folded[i] == Fold(args[i]);
      SamePrints(folded, args);
    case _ =>
  }

  lemma {:induction false} SamePrints(xs: seq<Node>, ys: seq<Node>)
    requires |xs| == |ys| && forall i | 0 <= i < |xs| :: Print(xs[i]) == Print(ys[i])
    ensures PrintArgs(xs) == PrintArgs(ys)
  {
    if |xs| > 1 { SamePrints(xs[1..], ys[1..]); }
  }

  // Whatever text is parsed, if every part of it was understood then printing
  // the tree and parsing again gives the same tree, up to negated literals; and
  // the printed text is its own print, so a second round changes nothing.
  lemma ParsedTextSettles(src: string)
    requires !HasUnknown(ParseFormula(src))
    ensures var printed := Print(ParseFormula(src));
            ParseFormula(printed) == Fold(ParseFormula(src)) && Print(ParseFormula(printed)) == printed
  {
    ExprRead(src);
    RoundTrip(ParseFormula(src));
    FoldPrints(ParseFormula(src));
  }

  lemma FiveIsNumber()
    ensures MatchUnsigned("5") == MatchNumber("5") == 1 && IsNumber("5")
  {
    assert DigitRun("") == 0 && DigitRun("5") == 1 by { assert "5"[1..] == ""; }
    NumberIs("5");
  }

  // "- 5" is the text that shows the exception: read as a negation, printed as
  // the literal "-5".
  lemma NegatedLiteralExample()
    ensures ParseFormula("- 5") == Neg(Num("5"))
    ensures ParseFormula(Print(Neg(Num("5")))) == Num("-5")
  {
    SpacedFive();
    FiveIsNumber();
    RoundTrip(Neg(Num("5")));
    assert "-" + "5" == "-5";
  }

  lemma SpacedFive()
    ensures ParseAtom("- 5") == (Neg(Num("5")), "")
    ensures ParseFormula("- 5") == Neg(Num("5"))
  {
    FiveIsNumber();
    assert MatchNumber("- 5") == 0 by { assert "- 5"[1..] == " 5"; }
    assert " 5" == " " + "5" && "- 5" == "-" + " 5";
    AtomNeg(" 5");
    LeadingSpace("5");
    AtomNumber("5");
    assert "5"[..1] == "5" && "5"[1..] == "";
  }
}
