// The formula language of ui-assets/formula-ast.js: its tree, what its recursive
// descent parser makes of a text, and the printer that is meant to undo it.
// `ParseExpr` and the functions below it say what each rule makes of the text
// that is left; module FormulaParser has the cursor machine that computes it.
module FormulaAst {
  import opened WhiteSpace
  import opened Decimal

  // Numbers are kept as the text the source's number pattern matched.
  datatype Node =
    | Ref(id: nat)
    | Num(lexeme: string)
    | Absent
    | Ident(name: string)
    | Neg(inner: Node)
    | Paren(body: Node)
    | Op(op: char, left: Node, right: Node)
    | Call(fn: string, args: seq<Node>)
    | Unknown(text: string)

  // ---------------------------------------------------------------- lexing

  predicate IsLetter(c: char) {
    'A' <= c <= 'Z' || 'a' <= c <= 'z' || c == '_'
  }

  function SkipWs(s: string): (r: string)
    ensures |r| <= |s|
    ensures r != "" ==> !IsSpace(r[0])
  {
    if s != "" && IsSpace(s[0]) then SkipWs(s[1..]) else s
  }

  // How many characters of `s` the pattern `\d+(\.\d+)?([eE][-+]?\d+)?` takes.
  function MatchUnsigned(s: string): (n: nat)
    ensures n <= |s|
    ensures n > 0 ==> IsDigit(s[0])
    ensures s != "" && IsDigit(s[0]) ==> n > 0
  {
    var d := DigitRun(s);
    if d == 0 then 0 else d + SuffixLength(s[d..])
  }

  function SuffixLength(s: string): (n: nat)
    ensures n <= |s|
  {
    var f := FractionLength(s);
    f + ExponentLength(s[f..])
  }

  function FractionLength(s: string): (n: nat)
    ensures n <= |s|
  {
    if |s| >= 2 && s[0] == '.' && IsDigit(s[1]) then 1 + DigitRun(s[1..]) else 0
  }

  function ExponentLength(s: string): (n: nat)
    ensures n <= |s|
  {
    if s != "" && (s[0] == 'e' || s[0] == 'E') then
      var k := if |s| > 1 && (s[1] == '-' || s[1] == '+') then 2 else 1;
      var d := DigitRun(s[k..]);
      if d == 0 then 0 else k + d
    else 0
  }

  function MatchNumber(s: string): (n: nat)
    ensures n <= |s|
  {
    if s != "" && s[0] == '-' then
      var n := MatchUnsigned(s[1..]);
      if n == 0 then 0 else n + 1
    else MatchUnsigned(s)
  }

  function IdentRun(s: string): (n: nat)
    ensures n <= |s|
  {
    if s != "" && (IsLetter(s[0]) || IsDigit(s[0])) then 1 + IdentRun(s[1..]) else 0
  }

  function MatchIdent(s: string): (n: nat)
    ensures n <= |s|
  {
    if s != "" && IsLetter(s[0]) then 1 + IdentRun(s[1..]) else 0
  }

  // --------------------------------------------------------------- parsing

  // Each function takes the text that is left and returns the node it reads and
  // the text left after it. None needs the text to be well formed, and each
  // measure is on the text alone: an `Unknown` atom takes nothing, but whatever
  // loops over it takes a character before it comes back.

  function ParseExpr(s: string): (r: (Node, string))
    ensures |r.1| <= |s|
    decreases |s|, 6
  {
    var (left, rest) := ParseMul(s);
    ExprTail(left, rest)
  }

  function ExprTail(left: Node, s: string): (r: (Node, string))
    ensures |r.1| <= |s|
    decreases |s|, 5
  {
    var t := SkipWs(s);
    if t != "" && (t[0] == '+' || t[0] == '-') then
      var (right, rest) := ParseMul(t[1..]);
      ExprTail(Op(t[0], left, right), rest)
    else (left, t)
  }

  function ParseMul(s: string): (r: (Node, string))
    ensures |r.1| <= |s|
    decreases |s|, 4
  {
    var (left, rest) := ParseAtom(s);
    MulTail(left, rest)
  }

  function MulTail(left: Node, s: string): (r: (Node, string))
    ensures |r.1| <= |s|
    decreases |s|, 3
  {
    var t := SkipWs(s);
    if t != "" && (t[0] == '*' || t[0] == '/') then
      var (right, rest) := ParseAtom(t[1..]);
      MulTail(Op(t[0], left, right), rest)
    else (left, t)
  }

  function ParseAtom(s: string): (r: (Node, string))
    ensures |r.1| <= |s|
    decreases |s|, 2
  {
    AtomAt(SkipWs(s))
  }

  function AtomAt(t: string): (r: (Node, string))
    ensures |r.1| <= |t|
    decreases |t|, 1
  {
    if t != "" && t[0] == '(' then ParseParen(t)
    else if t != "" && t[0] == '#' then ParseRef(t)
    else if MatchNumber(t) > 0 then (Num(t[..MatchNumber(t)]), t[MatchNumber(t)..])
    else if t != "" && t[0] == '-' then
      var (inner, rest) := ParseAtom(t[1..]);
      (Neg(inner), rest)
    else if MatchIdent(t) > 0 then ParseWord(t)
    else (Unknown(t), t)
  }

  function ParseParen(t: string): (r: (Node, string))
    requires t != ""
    ensures |r.1| < |t|
    decreases |t|, 0
  {
    var (e, rest) := ParseExpr(t[1..]);
    (Paren(e), Close(rest))
  }

  // Past a `)`, when there is one.
  function Close(s: string): (r: string)
    ensures |r| <= |s|
  {
    var u := SkipWs(s);
    if u != "" && u[0] == ')' then u[1..] else u
  }

  // A `#` with no digits after it reads as component 0.
  function ParseRef(t: string): (r: (Node, string))
    requires t != ""
    ensures |r.1| < |t|
  {
    var u := SkipWs(t[1..]);
    (Ref(Value(u[..DigitRun(u)])), u[DigitRun(u)..])
  }

  function ParseWord(t: string): (r: (Node, string))
    requires MatchIdent(t) > 0
    ensures |r.1| < |t|
    decreases |t|, 0
  {
    var name := t[..MatchIdent(t)];
    var after := t[MatchIdent(t)..];
    if name == "None" then (Absent, after) else
      var u := SkipWs(after);
      if u != "" && u[0] == '(' then CallRest(name, u) else (Ident(name), u)
  }

  // A call's argument list, from its `(` on; the closing `)` may be missing.
  function CallRest(name: string, u: string): (r: (Node, string))
    requires u != ""
    ensures |r.1| < |u|
    decreases |u|, 0
  {
    var (args, rest) := ParseArgs(SkipWs(u[1..]));
    (Call(name, args), if rest != "" && rest[0] == ')' then rest[1..] else rest)
  }

  function ParseArgs(s: string): (r: (seq<Node>, string))
    ensures |r.1| <= |s|
    decreases |s|, 7
  {
    if s == "" || s[0] == ')' then ([], s) else
      var (arg, rest) := ParseExpr(s);
      var u := SkipWs(rest);
      if u != "" && u[0] == ',' then
        var (more, end) := ParseArgs(u[1..]);
        ([arg] + more, end)
      else ([arg], u)
  }

  // The whole text; what an expression leaves over is dropped.
  function ParseFormula(src: string): Node {
    ParseExpr(src).0
  }

  // -------------------------------------------------------------- printing

  function Print(n: Node): string {
    match n
    case Ref(id) => "#" + Digits(id)
    case Num(lexeme) => lexeme
    case Absent => "None"
    case Ident(name) => name
    case Neg(inner) => "-" + Print(inner)
    case Paren(body) => "(" + Print(body) + ")"
    case Op(op, left, right) => Print(left) + " " + [op] + " " + Print(right)
    case Call(fn, args) => fn + "(" + PrintArgs(args) + ")"
    case Unknown(text) => text
  }

  function PrintArgs(args: seq<Node>): string {
    if args == [] then ""
    else if |args| == 1 then Print(args[0])
    else Print(args[0]) + ", " + PrintArgs(args[1..])
  }
}
