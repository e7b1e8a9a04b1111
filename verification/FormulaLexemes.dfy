// The words of the formula language (ui-assets/formula-ast.js), said without the
// matching: which texts are numbers and names, and that the parser's patterns take
// the longest one there is.
module FormulaLexemes {
  import opened WhiteSpace
  import opened Decimal
  import opened FormulaAst

  // One digit or more.
  predicate IsDigits(s: string) { s != "" && AllDigits(s) }

  // Nothing, or a point and digits.
  predicate IsFraction(s: string) { s == "" || (s[0] == '.' && IsDigits(s[1..])) }

  // Nothing, or an `e`, a sign if any, and digits.
  predicate IsExponent(s: string) {
    s != "" ==>
      && (s[0] == 'e' || s[0] == 'E')
      && (IsDigits(s[1..]) || (|s| > 1 && (s[1] == '-' || s[1] == '+') && IsDigits(s[2..])))
  }

  // `s` is digits up to `i`, then a fraction up to `j`, then an exponent.
  predicate SplitsAt(s: string, i: nat, j: nat) {
    i <= j <= |s| && IsDigits(s[..i]) && IsFraction(s[i..j]) && IsExponent(s[j..])
  }

  ghost predicate IsUnsigned(s: string) { exists i: nat, j: nat :: SplitsAt(s, i, j) }

  ghost predicate IsNumber(s: string) {
    IsUnsigned(s) || (s != "" && s[0] == '-' && IsUnsigned(s[1..]))
  }

  // A letter, and letters and digits after it.
  predicate IsWord(s: string) {
    s != "" && IsLetter(s[0]) && forall k | 0 <= k < |s| :: IsLetter(s[k]) || IsDigit(s[k])
  }

  // ------------------------------------------------------------------ digits

  // The run of digits stops only where there is none.
  lemma {:induction false} RunStops(s: string)
    ensures DigitRun(s) < |s| ==> !IsDigit(s[DigitRun(s)])
  {
    if s != "" && IsDigit(s[0]) { RunStops(s[1..]); }
  }

  lemma {:induction false} RunIsLongest(s: string, m: nat)
    requires m <= |s| && AllDigits(s[..m])
    ensures m <= DigitRun(s)
  {
    if m > 0 {
      assert s[..m][0] == s[0] && s[..m][1..] == s[1..][..m - 1];
      RunIsLongest(s[1..], m - 1);
    }
  }

  // What is taken of a fraction, and where it stops.
  lemma FractionTaken(s: string)
    ensures var f := FractionLength(s);
            IsFraction(s[..f]) && (0 < f < |s| ==> !IsDigit(s[f]))
  {
    var f := FractionLength(s);
    if f > 0 {
      assert s[..f][1..] == s[1..][..f - 1];
      RunStops(s[1..]);
    }
  }

  lemma ExponentTaken(s: string)
    ensures IsExponent(s[..ExponentLength(s)])
  {
    var e := ExponentLength(s);
    if e > 0 {
      var k := if |s| > 1 && (s[1] == '-' || s[1] == '+') then 2 else 1;
      assert s[..e][k..] == s[k..][..e - k];
    }
  }

  lemma FractionReaches(s: string, m: nat)
    requires m <= |s| && IsFraction(s[..m])
    ensures m <= FractionLength(s)
  {
    if m > 0 {
      assert s[..m][1..] == s[1..][..m - 1];
      assert IsDigit(s[1..][..m - 1][0]);
      RunIsLongest(s[1..], m - 1);
    }
  }

  lemma ExponentReaches(s: string, m: nat)
    requires 0 < m <= |s| && IsExponent(s[..m])
    ensures m <= ExponentLength(s)
  {
    var k := if |s| > 1 && (s[1] == '-' || s[1] == '+') then 2 else 1;
    if k == 2 && m > 1 {
      assert s[..m][1..][0] == s[1] && !IsDigit(s[1]);
      assert IsDigits(s[..m][2..]);
    }
    assert m > k && IsDigits(s[..m][k..]);
    assert s[..m][k..] == s[k..][..m - k];
    RunIsLongest(s[k..], m - k);
  }

  // ------------------------------------------------------------------ numbers

  lemma UnsignedTaken(s: string)
    requires MatchUnsigned(s) > 0
    ensures IsUnsigned(s[..MatchUnsigned(s)])
  {
    var d := DigitRun(s);
    var suffix := s[d..];
    var f := FractionLength(suffix);
    FractionTaken(suffix);
    ExponentTaken(suffix[f..]);
    PartsTogether(s, d, f, ExponentLength(suffix[f..]));
  }

  lemma PartsTogether(s: string, d: nat, f: nat, e: nat)
    requires d + f + e <= |s| && IsDigits(s[..d]) && IsFraction(s[d..][..f]) && IsExponent(s[d..][f..][..e])
    ensures IsUnsigned(s[..d + f + e])
  {
    ThreeParts(s, d, d + f, d + f + e);
    assert SplitsAt(s[..d + f + e], d, d + f);
  }

  lemma ThreeParts(s: string, i: nat, j: nat, n: nat)
    requires i <= j <= n <= |s|
    ensures s[..n][..i] == s[..i] && s[..n][i..j] == s[i..][..j - i] && s[..n][j..] == s[i..][j - i..][..n - j]
  {
  }

  lemma UnsignedIsLongest(s: string, m: nat, i: nat, j: nat)
    requires m <= |s| && SplitsAt(s[..m], i, j)
    ensures m <= MatchUnsigned(s)
  {
    var p, d := s[..m], DigitRun(s);
    assert p[..i] == s[..i];
    RunIsLongest(s, i);
    assert IsDigit(s[0]) by { assert p[..i][0] == s[0]; }
    if i < d {
      assert IsDigit(s[i]) by { assert s[..d][i] == s[i]; }
      NoFraction(p[i..j], s[i]);
      NoExponent(p[j..], s[i]);
    } else {
      assert p[d..][..j - d] == p[i..j] && p[d..][j - d..] == p[j..];
      SuffixIsLongest(s[d..], m - d, j - d, p[d..]);
    }
  }

  // Where a digit comes next neither a fraction nor an exponent begins.
  lemma NoFraction(a: string, c: char)
    requires IsFraction(a) && IsDigit(c) && (a != "" ==> a[0] == c)
    ensures a == ""
  {
  }

  lemma NoExponent(a: string, c: char)
    requires IsExponent(a) && c != 'e' && c != 'E' && (a != "" ==> a[0] == c)
    ensures a == ""
  {
  }

  lemma SuffixIsLongest(s: string, m: nat, j: nat, p: string)
    requires j <= m <= |s| && p == s[..m] && IsFraction(p[..j]) && IsExponent(p[j..])
    ensures m <= SuffixLength(s)
  {
    var f := FractionLength(s);
    assert p[..j] == s[..j];
    FractionReaches(s, j);
    if j < f {
      ShortFraction(s, m, j, p);
    } else {
      assert p[j..] == s[f..][..m - f];
      if m > f { ExponentReaches(s[f..], m - f); }
    }
  }

  // A fraction cut short is followed by no exponent.
  lemma ShortFraction(s: string, m: nat, j: nat, p: string)
    requires j <= m <= |s| && p == s[..m] && IsFraction(p[..j]) && IsExponent(p[j..]) && j < FractionLength(s)
    ensures m == j
  {
    var f := FractionLength(s);
    FractionTaken(s);
    assert s[0] == '.' && AllDigits(s[1..][..f - 1]);
    if j > 0 { assert s[1..][..f - 1][j - 1] == s[j]; }
    NoExponent(p[j..], s[j]);
  }

  // The number pattern takes a number, the longest that the text begins with, and
  // nothing only when it begins with none.
  lemma NumberTaken(s: string)
    ensures MatchNumber(s) > 0 ==> IsNumber(s[..MatchNumber(s)])
    ensures forall m | 0 <= m <= |s| && IsNumber(s[..m]) :: m <= MatchNumber(s)
  {
    var n := MatchNumber(s);
    if n > 0 {
      if s[0] == '-' {
        UnsignedTaken(s[1..]);
        assert s[..n][1..] == s[1..][..n - 1];
      } else {
        UnsignedTaken(s);
      }
    }
    forall m | 0 <= m <= |s| && IsNumber(s[..m]) ensures m <= n { NumberIsLongest(s, m); }
  }

  lemma NumberIsLongest(s: string, m: nat)
    requires m <= |s| && IsNumber(s[..m])
    ensures m <= MatchNumber(s)
  {
    if IsUnsigned(s[..m]) {
      var i: nat, j: nat :| SplitsAt(s[..m], i, j);
      assert s[..m][..i][0] == s[0];
      UnsignedIsLongest(s, m, i, j);
    } else {
      assert |s[..m]| == m > 0 && s[..m][0] == s[0] == '-';
      assert s[..m][1..] == s[1..][..m - 1];
      var i: nat, j: nat :| SplitsAt(s[1..][..m - 1], i, j);
      UnsignedIsLongest(s[1..], m - 1, i, j);
    }
  }

  // So a text is a number exactly when the pattern takes it whole.
  lemma NumberIs(s: string)
    ensures IsNumber(s) <==> s != "" && MatchNumber(s) == |s|
  {
    NumberTaken(s);
    assert s[..|s|] == s;
    if IsNumber(s) { NumberHasText(s); }
  }

  lemma NumberHasText(s: string)
    requires IsNumber(s)
    ensures s != ""
  {
    if IsUnsigned(s) {
      var i: nat, j: nat :| SplitsAt(s, i, j);
      assert s[..i] != "";
    }
  }

  // -------------------------------------------------------------------- names

  lemma {:induction false} IdentRunIs(s: string)
    ensures var n := IdentRun(s);
            && (forall k | 0 <= k < n :: IsLetter(s[k]) || IsDigit(s[k]))
            && (n < |s| ==> !IsLetter(s[n]) && !IsDigit(s[n]))
  {
    if s != "" && (IsLetter(s[0]) || IsDigit(s[0])) {
      IdentRunIs(s[1..]);
      assert forall k | 0 < k < IdentRun(s) :: s[k] == s[1..][k - 1];
    }
  }

  // The name pattern likewise.
  lemma WordTaken(s: string)
    ensures MatchIdent(s) > 0 ==> IsWord(s[..MatchIdent(s)])
    ensures forall m | 0 <= m <= |s| && IsWord(s[..m]) :: m <= MatchIdent(s)
  {
    var n := MatchIdent(s);
    if n > 0 {
      IdentRunIs(s[1..]);
      assert forall k | 0 < k < n :: s[k] == s[1..][k - 1];
      assert n < |s| ==> s[n] == s[1..][n - 1];
    }
    forall m | 0 <= m <= |s| && IsWord(s[..m]) ensures m <= n {
      assert forall k | 0 <= k < m :: s[k] == s[..m][k] && (IsLetter(s[k]) || IsDigit(s[k]));
      assert s[..m][0] == s[0];
    }
  }

  lemma WordIs(s: string)
    ensures IsWord(s) <==> s != "" && MatchIdent(s) == |s|
  {
    WordTaken(s);
    assert s[..|s|] == s;
  }

  // ------------------------------------------------------------- white space

  predicate AllBlank(s: string) { forall k | 0 <= k < |s| :: IsSpace(s[k]) }

  // What is skipped is all the white space there is in front, and nothing else.
  lemma {:induction false} BlanksSkipped(s: string) returns (k: nat)
    ensures k <= |s| && AllBlank(s[..k]) && SkipWs(s) == s[k..] && (k < |s| ==> !IsSpace(s[k]))
  {
    if s != "" && IsSpace(s[0]) {
      k := BlanksSkipped(s[1..]);
      k := k + 1;
      assert s[k..] == s[1..][k - 1..];
      assert forall i | 0 < i < k :: s[..k][i] == s[1..][..k - 1][i - 1];
    } else {
      k := 0;
    }
  }

  // White space in front of an expression makes no difference.
  lemma {:induction false} LeadingBlanks(b: string, s: string)
    requires AllBlank(b)
    ensures SkipWs(b + s) == SkipWs(s)
    ensures ParseAtom(b + s) == ParseAtom(s) && ParseMul(b + s) == ParseMul(s) && ParseExpr(b + s) == ParseExpr(s)
  {
    if b == "" {
      assert b + s == s;
    } else {
      assert IsSpace(b[0]) && (b + s)[1..] == b[1..] + s;
      LeadingBlanks(b[1..], s);
    }
  }
}
