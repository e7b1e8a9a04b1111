// The formula parser as ui-assets/formula-ast.js runs it: a cursor over the text,
// moved by loops and mutually recursive rules, proved to read exactly what
// FormulaAst says is there. That every method ends, on every text, is part of
// the proof.
module FormulaParser {
  import opened WhiteSpace
  import opened Decimal
  import opened FormulaAst

  // The parser's rules, one step at a time, as the loops below take them.

  lemma {:induction false} ExprTailSkips(n: Node, s: string)
    ensures ExprTail(n, SkipWs(s)) == ExprTail(n, s)
  {
    assert SkipWs(SkipWs(s)) == SkipWs(s);
  }

  lemma {:induction false} MulTailSkips(n: Node, s: string)
    ensures MulTail(n, SkipWs(s)) == MulTail(n, s)
  {
    assert SkipWs(SkipWs(s)) == SkipWs(s);
  }

  lemma {:induction false} ExprTailStep(n: Node, s: string)
    requires SkipWs(s) == s != "" && (s[0] == '+' || s[0] == '-')
    ensures ExprTail(n, s) == ExprTail(Op(s[0], n, ParseMul(s[1..]).0), ParseMul(s[1..]).1)
  {
  }

  lemma {:induction false} ExprTailStops(n: Node, s: string)
    requires SkipWs(s) == s
    ensures (s != "" && (s[0] == '+' || s[0] == '-')) || ExprTail(n, s) == (n, s)
  {
  }

  lemma {:induction false} MulTailStep(n: Node, s: string)
    requires SkipWs(s) == s != "" && (s[0] == '*' || s[0] == '/')
    ensures MulTail(n, s) == MulTail(Op(s[0], n, ParseAtom(s[1..]).0), ParseAtom(s[1..]).1)
  {
  }

  lemma {:induction false} MulTailStops(n: Node, s: string)
    requires SkipWs(s) == s
    ensures (s != "" && (s[0] == '*' || s[0] == '/')) || MulTail(n, s) == (n, s)
  {
  }

  lemma {:induction false} AtomSkips(s: string)
    ensures ParseAtom(s) == AtomAt(SkipWs(s))
  {
  }

  lemma {:induction false} WordRule(t: string)
    requires MatchIdent(t) > 0
    ensures var (name, after) := (t[..MatchIdent(t)], t[MatchIdent(t)..]);
            var u := SkipWs(after);
            ParseWord(t) ==
            if name == "None" then (Absent, after)
            else if u != "" && u[0] == '(' then CallRest(name, u)
            else (Ident(name), u)
  {
  }

  // The argument list when `args` have been read and `s` is left.
  ghost function ArgsFrom(args: seq<Node>, s: string): (seq<Node>, string) {
    (args + ParseArgs(s).0, ParseArgs(s).1)
  }

  lemma {:induction false} ArgsFromNone(s: string)
    ensures ArgsFrom([], s) == ParseArgs(s)
  {
    assert [] + ParseArgs(s).0 == ParseArgs(s).0;
  }

  lemma {:induction false} ArgsFromEnd(args: seq<Node>, s: string)
    requires s == "" || s[0] == ')'
    ensures ArgsFrom(args, s) == (args, s)
  {
    assert args + [] == args;
  }

  lemma {:induction false} ArgsFromStep(args: seq<Node>, s: string)
    requires s != "" && s[0] != ')'
    ensures var (arg, u) := (ParseExpr(s).0, SkipWs(ParseExpr(s).1));
            ArgsFrom(args, s) ==
            if u != "" && u[0] == ',' then ArgsFrom(args + [arg], u[1..]) else (args + [arg], u)
  {
    var (arg, u) := (ParseExpr(s).0, SkipWs(ParseExpr(s).1));
    if u != "" && u[0] == ',' {
      assert args + ([arg] + ParseArgs(u[1..]).0) == args + [arg] + ParseArgs(u[1..]).0;
    }
  }

  // The parser as the source runs it: one cursor, moved by every rule. `left`
  // is the text from the cursor on.
  class Parser {
    const src: string
    var i: nat
    ghost var left: string

    ghost predicate Valid()
      reads this
    {
      i <= |src| && left == src[i..]
    }

    constructor (src: string)
      ensures Valid() && this.src == src && left == src
    {
      this.src := src;
      i := 0;
      left := src;
    }

    // src[i] === c
    predicate At(c: char)
      requires Valid()
      reads this
      ensures At(c) == (left != "" && left[0] == c)
    {
      i < |src| && src[i] == c
    }

    // The next `k` characters, which the cursor moves past.
    method Take(k: nat) returns (text: string)
      requires Valid() && k <= |left|
      modifies this
      ensures Valid() && text == old(left)[..k] && left == old(left)[k..]
    {
      text := src[i..i + k];
      i := i + k;
      left := left[k..];
    }

    method Skip()
      requires Valid()
      modifies this
      ensures Valid() && left == SkipWs(old(left))
    {
      while i < |src| && IsSpace(src[i])
        invariant Valid() && SkipWs(left) == SkipWs(old(left))
      {
        i := i + 1;
        left := left[1..];
      }
    }

    method Expr() returns (n: Node)
      requires Valid()
      modifies this
      ensures Valid() && (n, left) == ParseExpr(old(left))
      decreases |left|, 6
    {
      n := Mul();
      ghost var whole := ExprTail(n, left);
      ExprTailSkips(n, left);
      Skip();
      while At('+') || At('-')
        invariant Valid() && |left| <= |old(left)|
        invariant left == SkipWs(left) && ExprTail(n, left) == whole
        decreases |left|
      {
        ExprTailStep(n, left);
        var op := Take(1);
        var right := Mul();
        n := Op(op[0], n, right);
        ExprTailSkips(n, left);
        Skip();
      }
      ExprTailStops(n, left);
    }

    method Mul() returns (n: Node)
      requires Valid()
      modifies this
      ensures Valid() && (n, left) == ParseMul(old(left))
      decreases |left|, 4
    {
      n := Atom();
      ghost var whole := MulTail(n, left);
      MulTailSkips(n, left);
      Skip();
      while At('*') || At('/')
        invariant Valid() && |left| <= |old(left)|
        invariant left == SkipWs(left) && MulTail(n, left) == whole
        decreases |left|
      {
        MulTailStep(n, left);
        var op := Take(1);
        var right := Atom();
        n := Op(op[0], n, right);
        MulTailSkips(n, left);
        Skip();
      }
      MulTailStops(n, left);
    }

    method Atom() returns (n: Node)
      requires Valid()
      modifies this
      ensures Valid() && (n, left) == ParseAtom(old(left))
      decreases |left|, 2
    {
      AtomSkips(left);
      Skip();
      if At('(') {
        n := ParenAt();
      } else if At('#') {
        n := RefAt();
      } else if MatchNumber(src[i..]) > 0 {
        var lexeme := Take(MatchNumber(src[i..]));
        n := Num(lexeme);
      } else if At('-') {
        var _ := Take(1);
        var inner := Atom();
        n := Neg(inner);
      } else if MatchIdent(src[i..]) > 0 {
        n := Word();
      } else {
        n := Unknown(src[i..]);
      }
    }

    method ParenAt() returns (n: Node)
      requires Valid() && left != ""
      modifies this
      ensures Valid() && (n, left) == ParseParen(old(left))
      decreases |left|, 0
    {
      var _ := Take(1);
      var e := Expr();
      Skip();
      if At(')') { var _ := Take(1); }
      n := Paren(e);
    }

    method RefAt() returns (n: Node)
      requires Valid() && left != ""
      modifies this
      ensures Valid() && (n, left) == ParseRef(old(left))
    {
      var _ := Take(1);
      Skip();
      var digits := Take(DigitRun(src[i..]));
      n := Ref(Value(digits));
    }

    method Word() returns (n: Node)
      requires Valid() && MatchIdent(left) > 0
      modifies this
      ensures Valid() && (n, left) == ParseWord(old(left))
      decreases |left|, 0
    {
      WordRule(left);
      var ident := Take(MatchIdent(src[i..]));
      if ident == "None" { return Absent; }
      Skip();
      if !At('(') { return Ident(ident); }
      n := CallAt(ident);
    }

    method CallAt(ident: string) returns (n: Node)
      requires Valid() && left != ""
      modifies this
      ensures Valid() && (n, left) == CallRest(ident, old(left))
      decreases |left|, 0
    {
      var _ := Take(1);
      Skip();
      var args := Args();
      if At(')') { var _ := Take(1); }
      n := Call(ident, args);
    }

    method Args() returns (args: seq<Node>)
      requires Valid()
      modifies this
      ensures Valid() && (args, left) == ParseArgs(old(left))
      decreases |left|, 7
    {
      args := [];
      ghost var whole := ParseArgs(left);
      ArgsFromNone(left);
      while i < |src| && src[i] != ')'
        invariant Valid() && |left| <= |old(left)|
        invariant ArgsFrom(args, left) == whole
        decreases |left|
      {
        ArgsFromStep(args, left);
        var arg := Expr();
        args := args + [arg];
        Skip();
        if At(',') {
          var _ := Take(1);
          continue;
        }
        return;
      }
      ArgsFromEnd(args, left);
    }

    static method Parse(text: string) returns (n: Node)
      ensures n == ParseFormula(text)
    {
      var p := new Parser(text);
      n := p.Expr();
    }
  }
}
