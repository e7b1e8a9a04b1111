// ui-assets/html.js: text made safe inside HTML, and the text an element shows.
module Html {

  function EscapeChar(c: char): string {
    match c
    case '<' => "&lt;"
    case '>' => "&gt;"
    case '&' => "&amp;"
    case '"' => "&quot;"
    case '\'' => "&#39;"
    case _ => [c]
  }

  function EscapeHtml(s: string): string {
    if s == "" then "" else EscapeChar(s[0]) + EscapeHtml(s[1..])
  }

  // ------------------------------------------------------ what HTML shows

  predicate StartsWith(s: string, p: string) {
    |p| <= |s| && s[..|p|] == p
  }

  // The text of an HTML fragment: tags dropped, the five escapes read back.
  function TextOf(html: string): string
    decreases |html|
  {
    if html == "" then ""
    else if html[0] == '<' then TextOf(AfterTag(html))
    else [CharAt(html).0] + TextOf(html[CharAt(html).1..])
  }

  // The character that `html` starts with, and how many it is written with.
  function CharAt(html: string): (r: (char, nat))
    requires html != ""
    ensures 1 <= r.1 <= |html|
  {
    if html[0] != '&' then (html[0], 1)
    else if StartsWith(html, "&lt;") then ('<', 4)
    else if StartsWith(html, "&gt;") then ('>', 4)
    else if StartsWith(html, "&amp;") then ('&', 5)
    else if StartsWith(html, "&quot;") then ('"', 6)
    else if StartsWith(html, "&#39;") then ('\'', 5)
    else ('&', 1)
  }

  // What follows the `>` that ends the tag `html` starts with.
  function AfterTag(html: string): (rest: string)
    requires html != ""
    ensures |rest| < |html|
  {
    if html[0] == '>' || |html| == 1 then html[1..] else AfterTag(html[1..])
  }

  predicate IsTag(tag: string) {
    && |tag| >= 2 && tag[0] == '<' && tag[|tag| - 1] == '>'
    && forall i | 0 <= i < |tag| - 1 :: tag[i] != '>'
  }

  lemma {:induction false} AfterTagIs(tag: string, rest: string)
    requires tag != "" && tag[|tag| - 1] == '>'
    requires forall i | 0 <= i < |tag| - 1 :: tag[i] != '>'
    ensures AfterTag(tag + rest) == rest
  {
    assert (tag + rest)[1..] == tag[1..] + rest;
    if |tag| > 1 {
      AfterTagIs(tag[1..], rest);
    } else {
      assert tag[1..] + rest == rest;
    }
  }

  // A tag adds nothing to the text.
  lemma TagText(tag: string, rest: string)
    requires IsTag(tag)
    ensures TextOf(tag + rest) == TextOf(rest)
  {
    AfterTagIs(tag, rest);
  }

  lemma {:induction false} EscapeCharRead(c: char, rest: string)
    ensures CharAt(EscapeChar(c) + rest) == (c, |EscapeChar(c)|)
    ensures (EscapeChar(c) + rest)[0] != '<'
  {
    var e := EscapeChar(c) + rest;
    assert e[..|EscapeChar(c)|] == EscapeChar(c);
    if c in {'<', '>', '&', '"', '\''} {
      assert e[0] == '&' && e[1] == EscapeChar(c)[1];
      if e[1] != 'l' { NotStart(e, "&lt;"); }
      if e[1] != 'g' { NotStart(e, "&gt;"); }
      if e[1] != 'a' { NotStart(e, "&amp;"); }
      if e[1] != 'q' { NotStart(e, "&quot;"); }
    }
  }

  lemma NotStart(s: string, p: string)
    requires |p| > 1 && |s| > 1 && s[1] != p[1]
    ensures !StartsWith(s, p)
  {
  }

  lemma {:induction false} EscapeCharText(c: char, rest: string)
    ensures TextOf(EscapeChar(c) + rest) == [c] + TextOf(rest)
  {
    EscapeCharRead(c, rest);
    assert (EscapeChar(c) + rest)[|EscapeChar(c)|..] == rest;
  }

  lemma {:induction false} EscapeStep(s: string, rest: string)
    requires s != ""
    ensures EscapeHtml(s) + rest == EscapeChar(s[0]) + (EscapeHtml(s[1..]) + rest)
  {
    assert EscapeHtml(s) == EscapeChar(s[0]) + EscapeHtml(s[1..]);
    Associates(EscapeChar(s[0]), EscapeHtml(s[1..]), rest);
  }

  lemma Associates(a: string, b: string, c: string)
    ensures (a + b) + c == a + (b + c)
  {
  }

  // Escaped text shows as itself.
  lemma {:induction false} EscapedText(s: string, rest: string)
    ensures TextOf(EscapeHtml(s) + rest) == s + TextOf(rest)
  {
    if s == "" {
      assert EscapeHtml(s) + rest == rest;
    } else {
      calc {
        TextOf(EscapeHtml(s) + rest);
      == { EscapeStep(s, rest); }
        TextOf(EscapeChar(s[0]) + (EscapeHtml(s[1..]) + rest));
      == { EscapeCharText(s[0], EscapeHtml(s[1..]) + rest); }
        [s[0]] + TextOf(EscapeHtml(s[1..]) + rest);
      == { EscapedText(s[1..], rest); }
        [s[0]] + (s[1..] + TextOf(rest));
      == { Associates([s[0]], s[1..], TextOf(rest)); assert [s[0]] + s[1..] == s; }
        s + TextOf(rest);
      }
    }
  }
}
