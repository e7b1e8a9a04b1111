// What is a string, a comment and code in a Lisp text, and which brackets are open
// at a place in it: said by looking back over the text, for the scanners of the
// front end to be measured by.
module LispText {

  predicate IsOpen(c: char) { c == '(' || c == '[' || c == '{' }

  predicate IsClose(c: char) { c == ')' || c == ']' || c == '}' }

  // How many backslashes stand just before `k`, back to `from`.
  function Backslashes(text: string, from: nat, k: nat): (n: nat)
    requires from <= k <= |text|
    ensures n <= k - from
  {
    if k == from || text[k - 1] != '\\' then 0 else 1 + Backslashes(text, from, k - 1)
  }

  // The quote at `k` closes the string opened at `q`: it is not escaped.
  predicate ClosesString(text: string, q: nat, k: nat) {
    q < k < |text| && text[k] == '"' && Backslashes(text, q + 1, k) % 2 == 0
  }

  // A string opened at `q` is open up to `i`.
  predicate OpenString(text: string, q: nat, i: nat) {
    q < i <= |text| && text[q] == '"' && forall k | q < k < i :: !ClosesString(text, q, k)
  }

  // A comment begun at `c` goes on up to `i`.
  predicate OpenComment(text: string, c: nat, i: nat) {
    c < i <= |text| && text[c] == ';' && forall k | c < k < i :: text[k] != '\n'
  }

  // A string is opened by a quote in code, a comment begun by a semicolon in code.
  ghost predicate StringAt(text: string, i: nat)
    decreases i, 0
  {
    exists q :: 0 <= q < i && OpenString(text, q, i) && CodeAt(text, q)
  }

  ghost predicate CommentAt(text: string, i: nat)
    decreases i, 0
  {
    exists c :: 0 <= c < i && OpenComment(text, c, i) && CodeAt(text, c)
  }

  ghost predicate CodeAt(text: string, i: nat)
    decreases i, 1
  {
    !StringAt(text, i) && !CommentAt(text, i)
  }

  lemma StringOpener(text: string, n: nat) returns (q: nat)
    requires StringAt(text, n)
    ensures OpenString(text, q, n) && CodeAt(text, q)
  {
    q :| 0 <= q < n && OpenString(text, q, n) && CodeAt(text, q);
  }

  lemma CommentOpener(text: string, n: nat) returns (c: nat)
    requires CommentAt(text, n)
    ensures OpenComment(text, c, n) && CodeAt(text, c)
  {
    c :| 0 <= c < n && OpenComment(text, c, n) && CodeAt(text, c);
  }

  // Nothing is opened in a string, nor in a comment.
  lemma InsideString(text: string, q: nat, i: nat)
    requires OpenString(text, q, i) && CodeAt(text, q)
    ensures StringAt(text, i) && !CodeAt(text, i)
  {
  }

  lemma InsideComment(text: string, c: nat, i: nat)
    requires OpenComment(text, c, i) && CodeAt(text, c)
    ensures CommentAt(text, i) && !CodeAt(text, i)
  {
  }

  // A place is in one of the three only.
  lemma OneOfThree(text: string, i: nat)
    ensures !(StringAt(text, i) && CommentAt(text, i))
  {
    if StringAt(text, i) && CommentAt(text, i) {
      var q := StringOpener(text, i);
      var c := CommentOpener(text, i);
      if q < c { InsideString(text, q, c); } else { InsideComment(text, c, q); }
    }
  }

  // And in one string only.
  lemma OneString(text: string, p: nat, q: nat, i: nat)
    requires OpenString(text, p, i) && CodeAt(text, p) && OpenString(text, q, i) && CodeAt(text, q)
    ensures p == q
  {
    if p < q { InsideString(text, p, q); } else if q < p { InsideString(text, q, p); }
  }

  // --------------------------------------------------------- going on by one

  // A string that is open past `i` and not opened there is open at `i`.
  lemma StringBack(text: string, i: nat) returns (q: nat)
    requires i < |text| && StringAt(text, i + 1) && (text[i] != '"' || !CodeAt(text, i))
    ensures q < i && OpenString(text, q, i + 1) && CodeAt(text, q) && StringAt(text, i) && OpenString(text, q, i)
  {
    q := StringOpener(text, i + 1);
    assert q < i;
    InsideString(text, q, i);
  }

  lemma CommentBack(text: string, i: nat)
    requires i < |text| && CommentAt(text, i + 1) && (text[i] != ';' || !CodeAt(text, i))
    ensures CommentAt(text, i) && text[i] != '\n'
  {
    var c := CommentOpener(text, i + 1);
    assert c < i;
    InsideComment(text, c, i);
  }

  // From code: a quote opens a string, a semicolon a comment, all else is code.
  lemma AfterCode(text: string, i: nat)
    requires i < |text| && CodeAt(text, i)
    ensures text[i] == '"' ==> OpenString(text, i, i + 1) && StringAt(text, i + 1)
    ensures text[i] == ';' ==> CommentAt(text, i + 1)
    ensures text[i] != '"' && text[i] != ';' ==> CodeAt(text, i + 1)
  {
    if text[i] == '"' {
      InsideString(text, i, i + 1);
    } else if text[i] == ';' {
      InsideComment(text, i, i + 1);
    } else if StringAt(text, i + 1) {
      var _ := StringBack(text, i);
    } else if CommentAt(text, i + 1) {
      CommentBack(text, i);
    }
  }

  // From inside a string: code after the quote that closes it, else the string.
  lemma AfterString(text: string, q: nat, i: nat)
    requires i < |text| && OpenString(text, q, i) && CodeAt(text, q)
    ensures ClosesString(text, q, i) ==> CodeAt(text, i + 1)
    ensures !ClosesString(text, q, i) ==> OpenString(text, q, i + 1) && StringAt(text, i + 1)
  {
    InsideString(text, q, i);
    if !ClosesString(text, q, i) {
      InsideString(text, q, i + 1);
    } else if StringAt(text, i + 1) {
      var p := StringBack(text, i);
      OneString(text, p, q, i);
    } else if CommentAt(text, i + 1) {
      CommentBack(text, i);
      OneOfThree(text, i);
    }
  }

  // From inside a comment: code after a newline, else the comment.
  lemma AfterComment(text: string, i: nat)
    requires i < |text| && CommentAt(text, i)
    ensures if text[i] == '\n' then CodeAt(text, i + 1) else CommentAt(text, i + 1)
  {
    var c := CommentOpener(text, i);
    OneOfThree(text, i);
    if text[i] != '\n' {
      InsideComment(text, c, i + 1);
    } else if StringAt(text, i + 1) {
      var _ := StringBack(text, i);
    } else if CommentAt(text, i + 1) {
      CommentBack(text, i);
    }
  }

  // ---------------------------------------------------------------- brackets

  // A bracket outside strings and comments.
  ghost predicate CodeBracket(text: string, i: nat) {
    i < |text| && CodeAt(text, i) && (IsOpen(text[i]) || IsClose(text[i]))
  }

  // The brackets in code that are open before `n`, outermost first: an opener is
  // put on top, a closer takes the top off if there is one.
  ghost function OpenAt(text: string, n: nat): (open: seq<nat>)
    requires n <= |text|
    ensures forall k | 0 <= k < |open| :: open[k] < n
  {
    if n == 0 then []
    else
      var open := OpenAt(text, n - 1);
      if !CodeBracket(text, n - 1) then open
      else if IsOpen(text[n - 1]) then open + [n - 1]
      else if open == [] then []
      else open[..|open| - 1]
  }
}
