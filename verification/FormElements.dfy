// What callAtCursor (ui-assets/repl-symbols.js) takes for the elements of a form:
// every place between them is blank, none of them is cut inside a string or a
// nested form, and each goes on to the next blank outside those.
module FormElements {
  import opened Wrappers
  import opened WhiteSpace
  import opened LispText
  import opened LispScan

  // White space in code, or a comment.
  ghost predicate BlankAt(text: string, i: nat) {
    i < |text| && (CommentAt(text, i) || (CodeAt(text, i) && (IsSpace(text[i]) || text[i] == ';')))
  }

  // A jump from code ends in code, unless the limit cuts it off.
  lemma JumpCode(text: string, i: nat, limit: nat)
    requires i < limit <= |text| && CodeAt(text, i)
    ensures Jump(text, i, limit) < limit ==> CodeAt(text, Jump(text, i, limit))
    ensures forall k | i < k < Jump(text, i, limit) :: if text[i] == '"' then StringAt(text, k) else CommentAt(text, k)
  {
    AfterCode(text, i);
    if text[i] == '"' {
      StringCode(text, i, limit);
    } else if text[i] == ';' {
      CommentCode(text, i, limit);
    }
  }

  lemma StringCode(text: string, i: nat, limit: nat)
    requires i < limit <= |text| && CodeAt(text, i) && text[i] == '"'
    ensures var r := StringEnd(text, i + 1, limit);
            (r + 1 < limit ==> CodeAt(text, r + 1)) && forall k | i < k <= r :: StringAt(text, k)
  {
    var r := StringEnd(text, i + 1, limit);
    StringEndCloses(text, i, limit);
    forall k | i < k <= r ensures StringAt(text, k) { InsideString(text, i, k); }
    if r > i && r + 1 < limit { AfterString(text, i, r); }
  }

  lemma CommentCode(text: string, i: nat, limit: nat)
    requires i < limit <= |text| && CodeAt(text, i) && text[i] == ';'
    ensures var r := LineEnd(text, i, limit);
            (r + 1 < limit ==> CodeAt(text, r + 1)) && forall k | i < k <= r :: CommentAt(text, k)
  {
    var r := LineEnd(text, i, limit);
    NewlineIsFirst(text, i);
    forall k | i < k <= r ensures CommentAt(text, k) { InsideComment(text, i, k); }
    if r + 1 < limit {
      assert text[r] == '\n' && r > i;
      AfterComment(text, r);
    }
  }

  lemma {:induction false} NewlineIsFirst(text: string, i: nat)
    requires i <= |text|
    ensures var n := NewlineFrom(text, i);
            (forall k | i <= k < n :: text[k] != '\n') && (n < |text| ==> text[n] == '\n')
    decreases |text| - i
  {
    if i < |text| && text[i] != '\n' { NewlineIsFirst(text, i + 1); }
  }

  // ------------------------------------------------------------- a nested form

  // With `open` open at `j`, forms are open at every place up to where the skip
  // ends, and none past it if it ends on a paren.
  ghost predicate Nests(text: string, limit: nat, j: nat, open: seq<nat>, e: nat) {
    && j <= e < limit <= |text|
    && (forall k | j <= k <= e :: OpenFrom(text, k, j, open) != [])
    && (e < limit - 1 ==> CodeAt(text, e + 1) && forall k | e < k <= limit :: OpenFrom(text, k, j, open) == OpenFrom(text, k, e + 1, []))
  }

  // A jump, and what is open where it ends or is cut off.
  lemma OpenAcross(text: string, j: nat, k: nat, limit: nat, open: seq<nat>)
    requires j < k <= limit <= |text|
    ensures OpenFrom(text, k, j, open)
         == if Jump(text, j, limit) <= k then OpenFrom(text, k, Jump(text, j, limit), PushPop(text, j, open))
            else PushPop(text, j, open)
  {
    JumpCut(text, j, k, limit);
    OpenStep(text, k, j, open);
  }

  lemma {:induction false} FormNests(text: string, limit: nat, j: nat, open: seq<nat>)
    requires j < limit <= |text| && open != [] && CodeAt(text, j)
    ensures Nests(text, limit, j, open, FormEnd(text, limit, j, |open|))
    decreases limit - j
  {
    var e, next, n := FormEnd(text, limit, j, |open|), PushPop(text, j, open), Jump(text, j, limit);
    FormEndStep(text, limit, j, |open|);
    JumpCode(text, j, limit);
    if text[j] == ')' && |open| == 1 {
      AfterCode(text, j);
      forall k | j < k <= limit ensures OpenFrom(text, k, j, open) == OpenFrom(text, k, j + 1, []) {
        OpenAcross(text, j, k, limit, open);
      }
    } else if n < limit {
      FormNests(text, limit, n, next);
      NestsBack(text, limit, j, open, e);
    } else {
      assert FormEnd(text, limit, limit, |next|) == limit - 1;
      forall k | j < k <= limit - 1 ensures OpenFrom(text, k, j, open) != [] { OpenAcross(text, j, k, limit, open); }
    }
  }

  lemma NestsBack(text: string, limit: nat, j: nat, open: seq<nat>, e: nat)
    requires j < limit <= |text| && open != [] && PushPop(text, j, open) != []
    requires Jump(text, j, limit) < limit && Nests(text, limit, Jump(text, j, limit), PushPop(text, j, open), e)
    ensures Nests(text, limit, j, open, e)
  {
    forall k | j <= k <= e ensures OpenFrom(text, k, j, open) != [] {
      if j < k { OpenAcross(text, j, k, limit, open); }
    }
    if e < limit - 1 {
      forall k | e < k <= limit ensures OpenFrom(text, k, j, open) == OpenFrom(text, k, e + 1, []) {
        OpenAcross(text, j, k, limit, open);
      }
    }
  }

  // ---------------------------------------------------------------- an element

  // From `s` to `i` no form is left open, and going on from `i` is going on from `s`.
  ghost predicate Level(text: string, s: nat, i: nat, limit: nat) {
    && s <= i <= limit <= |text| && CodeAt(text, i)
    && forall k | i <= k <= limit :: OpenFrom(text, k, s, []) == OpenFrom(text, k, i, [])
  }

  // A blank place from `s` on is inside a nested form.
  ghost predicate BlanksNested(text: string, s: nat, i: nat, j: nat) {
    j <= |text| && s <= i && forall k | i <= k < j && BlankAt(text, k) :: OpenFrom(text, k, s, []) != []
  }

  lemma StringIsNotBlank(text: string, k: nat)
    requires StringAt(text, k)
    ensures !BlankAt(text, k)
  {
    OneOfThree(text, k);
  }

  // One part of an element: it ends at the limit or on the same level, and what is
  // blank in it is nested.
  lemma PartIs(text: string, s: nat, i: nat, limit: nat)
    requires i < limit && Level(text, s, i, limit) && !BlankAt(text, i) && text[i] != ')'
    ensures BlanksNested(text, s, i, Part(text, i, limit))
    ensures Part(text, i, limit) < limit ==> Level(text, s, Part(text, i, limit), limit)
  {
    var n := Part(text, i, limit);
    if text[i] == '(' {
      FormPart(text, s, i, limit);
    } else {
      JumpCode(text, i, limit);
      assert n == Jump(text, i, limit);
      forall k | i <= k < n ensures !BlankAt(text, k) {
        if k > i {
          assert StringAt(text, k);
          StringIsNotBlank(text, k);
        }
      }
      if n < limit {
        forall k | n <= k <= limit ensures OpenFrom(text, k, s, []) == OpenFrom(text, k, n, []) {
          OpenAcross(text, i, k, limit, []);
        }
      }
    }
  }

  lemma FormPart(text: string, s: nat, i: nat, limit: nat)
    requires i < limit && Level(text, s, i, limit) && text[i] == '('
    ensures BlanksNested(text, s, i, Part(text, i, limit))
    ensures Part(text, i, limit) < limit ==> Level(text, s, Part(text, i, limit), limit)
  {
    var e := FormEnd(text, limit, i, 0);
    AfterCode(text, i);
    FormEndStep(text, limit, i, 0);
    FormOpens(text, s, i, limit);
    assert !BlankAt(text, i);
    if i + 1 < limit {
      FormNests(text, limit, i + 1, [i]);
      FormOnLevel(text, s, i, e, limit);
    }
  }

  lemma FormOpens(text: string, s: nat, i: nat, limit: nat)
    requires i < limit && Level(text, s, i, limit) && text[i] == '('
    ensures forall k | i < k <= limit :: OpenFrom(text, k, s, []) == OpenFrom(text, k, i + 1, [i])
  {
    assert PushPop(text, i, []) == [] + [i] == [i];
    forall k | i < k <= limit ensures OpenFrom(text, k, s, []) == OpenFrom(text, k, i + 1, [i]) {
      OpenAcross(text, i, k, limit, []);
    }
  }

  lemma FormOnLevel(text: string, s: nat, i: nat, e: nat, limit: nat)
    requires i + 1 < limit && Level(text, s, i, limit) && !BlankAt(text, i) && Nests(text, limit, i + 1, [i], e)
    requires forall k | i < k <= limit :: OpenFrom(text, k, s, []) == OpenFrom(text, k, i + 1, [i])
    ensures BlanksNested(text, s, i, e + 1)
    ensures e + 1 < limit ==> Level(text, s, e + 1, limit)
  {
    forall k | i <= k < e + 1 && BlankAt(text, k) ensures OpenFrom(text, k, s, []) != [] {
      assert k > i;
      assert OpenFrom(text, k, i + 1, [i]) != [];
    }
    if e + 1 < limit {
      forall k | e + 1 <= k <= limit ensures OpenFrom(text, k, s, []) == OpenFrom(text, k, e + 1, []) {
        assert OpenFrom(text, k, i + 1, [i]) == OpenFrom(text, k, e + 1, []);
      }
    }
  }

  // An element is not cut inside a string or a nested form, and ends at the first
  // blank place that is in neither.
  ghost predicate ElementIs(text: string, s: nat, e: nat, limit: nat) {
    && s < e <= limit <= |text| && CodeAt(text, s) && !BlankAt(text, s)
    && BlanksNested(text, s, s, e)
    && (e < limit ==> CodeAt(text, e) && BlankAt(text, e) && OpenFrom(text, e, s, []) == [])
  }

  // No paren is met that closes the form the elements are in.
  ghost predicate NoneCloses(text: string, i: nat, limit: nat)
    requires i <= limit <= |text|
  {
    NestedFormsClose(text, limit, i)
  }

  lemma {:induction false} ElementGoesOn(text: string, s: nat, i: nat, limit: nat)
    requires i < limit && Level(text, s, i, limit) && NoneCloses(text, i, limit) && BlanksNested(text, s, s, i)
    ensures var e := ElementEnd(text, i, limit);
            && BlanksNested(text, s, s, e)
            && (e < limit ==> CodeAt(text, e) && BlankAt(text, e) && OpenFrom(text, e, s, []) == [] && NoneCloses(text, e, limit))
    decreases limit - i
  {
    if !(IsSpace(text[i]) || text[i] == ';') {
      var n := Part(text, i, limit);
      assert !BlankAt(text, i);
      PartIs(text, s, i, limit);
      if n < limit { ElementGoesOn(text, s, n, limit); }
    }
  }

  // The elements of a form, read on from `i`: each is one, and what is left is blank.
  ghost predicate Divided(text: string, i: nat, limit: nat, els: seq<Element>)
    decreases |els|
  {
    && i <= limit <= |text|
    && if els == [] then forall k | i <= k < limit :: BlankAt(text, k)
       else
         && i <= els[0].start && (forall k | i <= k < els[0].start :: BlankAt(text, k))
         && ElementIs(text, els[0].start, els[0].end, limit)
         && Divided(text, els[0].end, limit, els[1..])
  }

  lemma {:induction false} ElementsDivide(text: string, i: nat, limit: nat)
    requires i <= limit <= |text| && (i < limit ==> CodeAt(text, i)) && NoneCloses(text, i, limit)
    ensures Divided(text, i, limit, Elements(text, i, limit))
    decreases limit - i
  {
    if i < limit {
      if IsSpace(text[i]) || text[i] == ';' {
        BlankStep(text, i, limit);
      } else {
        var e := ElementEnd(text, i, limit);
        ElementGoesOn(text, i, i, limit);
        ElementsDivide(text, e, limit);
        assert Elements(text, i, limit)[1..] == Elements(text, e, limit);
      }
    }
  }

  lemma {:induction false} BlankStep(text: string, i: nat, limit: nat)
    requires i < limit <= |text| && CodeAt(text, i) && (IsSpace(text[i]) || text[i] == ';') && NoneCloses(text, i, limit)
    ensures Divided(text, i, limit, Elements(text, i, limit))
    decreases limit - i, 0
  {
    var n := Jump(text, i, limit);
    JumpCode(text, i, limit);
    assert Elements(text, i, limit) == Elements(text, n, limit);
    ElementsDivide(text, n, limit);
    forall k | i <= k < n ensures BlankAt(text, k) { if k > i { assert CommentAt(text, k); } }
    DividedBack(text, i, n, limit, Elements(text, n, limit));
  }

  lemma DividedBack(text: string, i: nat, n: nat, limit: nat, els: seq<Element>)
    requires i <= n && Divided(text, n, limit, els) && forall k | i <= k < n :: BlankAt(text, k)
    ensures Divided(text, i, limit, els)
  {
  }

  // The elements of the innermost form open at the cursor divide what has been
  // typed of it.
  lemma InnermostDivided(text: string, cursor: nat)
    requires cursor <= |text| && OpenFrom(text, cursor, 0, []) != []
    ensures var open := OpenFrom(text, cursor, 0, []);
            var start := open[|open| - 1] + 1;
            start <= cursor && Divided(text, start, cursor, Elements(text, start, cursor))
  {
    var open := OpenFrom(text, cursor, 0, []);
    InnermostFormReads(text, cursor);
    OpenedInCode(text, cursor, 0, []);
    assert OpensForm(text, open[|open| - 1], cursor);
    var start := open[|open| - 1] + 1;
    AfterCode(text, start - 1);
    ElementsDivide(text, start, cursor);
  }

  // A paren in code.
  ghost predicate OpensForm(text: string, p: nat, limit: nat) {
    p < limit <= |text| && CodeAt(text, p) && text[p] == '('
  }

  ghost predicate AllOpenForms(text: string, open: seq<nat>, limit: nat) {
    forall k | 0 <= k < |open| :: OpensForm(text, open[k], limit)
  }

  lemma StepOpensForms(text: string, i: nat, open: seq<nat>, limit: nat)
    requires i < limit <= |text| && CodeAt(text, i) && AllOpenForms(text, open, limit)
    ensures AllOpenForms(text, PushPop(text, i, open), limit)
  {
  }

  // Every form open was opened in code.
  lemma {:induction false} OpenedInCode(text: string, limit: nat, i: nat, open: seq<nat>)
    requires i <= limit <= |text| && (i < limit ==> CodeAt(text, i)) && AllOpenForms(text, open, limit)
    ensures AllOpenForms(text, OpenFrom(text, limit, i, open), limit)
    decreases limit - i
  {
    if i < limit {
      JumpCode(text, i, limit);
      StepOpensForms(text, i, open, limit);
      OpenedInCode(text, limit, Jump(text, i, limit), PushPop(text, i, open));
    }
  }

  lemma CallOfReads(text: string, cursor: nat, els: seq<Element>)
    requires cursor <= |text| && Placed(els, 0, cursor)
    ensures CallOf(text, cursor, els) == None <==> els == [] || text[els[0].start] == '(' || text[els[0].start] == '"'
    ensures CallOf(text, cursor, els).Some? ==> CallIs(text, cursor, els, CallOf(text, cursor, els).value)
  {
  }

  // The call reported at the cursor, inside the innermost open form, whose elements
  // InnermostDivided describes: none where the form has none or begins with a form
  // or a string; otherwise the first element, the texts of those ended before the
  // cursor after it, and which argument comes at the cursor, counting one still
  // being typed.
  lemma CallReads(text: string, cursor: nat, open: seq<nat>, els: seq<Element>)
    requires cursor <= |text| && open == OpenFrom(text, cursor, 0, []) && open != [] && open[|open| - 1] < cursor
    requires els == Elements(text, open[|open| - 1] + 1, cursor)
    ensures Placed(els, 0, cursor)
    ensures CallAt(text, cursor) == None <==> els == [] || text[els[0].start] == '(' || text[els[0].start] == '"'
    ensures CallAt(text, cursor).Some? ==> CallIs(text, cursor, els, CallAt(text, cursor).value)
  {
    CallInInnermost(text, cursor, open);
    CallInIs(text, cursor, open[|open| - 1] + 1, els);
    CallOfReads(text, cursor, els);
  }

  lemma CallInInnermost(text: string, cursor: nat, open: seq<nat>)
    requires cursor <= |text| && open == OpenFrom(text, cursor, 0, []) && open != [] && open[|open| - 1] < cursor
    ensures CallAt(text, cursor) == CallIn(text, cursor, open[|open| - 1] + 1)
  {
  }

  lemma CallInIs(text: string, cursor: nat, start: nat, els: seq<Element>)
    requires start <= cursor <= |text| && els == Elements(text, start, cursor)
    ensures Placed(els, 0, cursor) && CallIn(text, cursor, start) == CallOf(text, cursor, els)
  {
    PlacedFromStart(els, start, cursor);
  }

  lemma PlacedFromStart(els: seq<Element>, start: nat, cursor: nat)
    requires Placed(els, start, cursor)
    ensures Placed(els, 0, cursor)
  {
  }

  // And none outside every form.
  lemma NoCallOutside(text: string, cursor: nat)
    requires cursor <= |text| && OpenFrom(text, cursor, 0, []) == []
    ensures CallAt(text, cursor) == None
  {
  }

  predicate CallIs(text: string, cursor: nat, els: seq<Element>, r: CallInfo) {
    && els != [] && (forall k | 0 <= k < |els| :: els[k].start < els[k].end <= |text|)
    && r.head == text[els[0].start..els[0].end]
    && (if els[|els| - 1].end == cursor then r.argIndex == |els| - 2 else r.argIndex == |els| - 1)
    && |r.args| == (if r.argIndex < 0 then 0 else r.argIndex)
    && forall k | 0 <= k < |r.args| && k + 1 < |els| :: r.args[k] == text[els[k + 1].start..els[k + 1].end]
  }
}
