// The form a paste evaluates (ui-assets/paste-forms.js, pasteSource), read back:
// it says which components to make, in order, each with its constructor and
// options, and which to connect.
module PasteReader {
  import opened Graph
  import opened PasteForms
  import opened Decimal
  import opened Wrappers

  predicate StartsWith(s: string, p: string) { |p| <= |s| && s[..|p|] == p }

  // Where `c` first is, or the length.
  function Until(s: string, c: char): (k: nat)
    ensures k <= |s|
  {
    if s == "" || s[0] == c then 0 else 1 + Until(s[1..], c)
  }

  lemma Starts(p: string, rest: string)
    ensures StartsWith(p + rest, p) && (p + rest)[|p|..] == rest
  {
  }

  lemma {:induction false} UntilIs(a: string, c: char, rest: string)
    requires c !in a && (rest == "" || rest[0] == c)
    ensures Until(a + rest, c) == |a| && (a + rest)[..|a|] == a && (a + rest)[|a|..] == rest
  {
    if a != "" {
      assert (a + rest)[1..] == a[1..] + rest;
      UntilIs(a[1..], c, rest);
    } else {
      assert a + rest == rest;
    }
  }

  // ------------------------------------------------------------------- numbers

  function ReadId(s: string): (r: (Id, string))
    ensures |r.1| <= |s|
  {
    if s != "" && s[0] == '-' then
      var n := DigitRun(s[1..]);
      var v: Id := Value(s[1..][..n]);
      (-v, s[1..][n..])
    else
      var n := DigitRun(s);
      (Value(s[..n]), s[n..])
  }

  lemma IdRead(id: Id, rest: string)
    requires rest != "" ==> !IsDigit(rest[0])
    ensures ReadId(Symbol(id)[1..] + rest) == (id, rest)
  {
    if id < 0 { NegativeRead(id, rest); } else { NaturalRead(id, rest); }
  }

  lemma NaturalRead(n: nat, rest: string)
    requires rest != "" ==> !IsDigit(rest[0])
    ensures Symbol(n)[1..] == Digits(n) && ReadId(Digits(n) + rest) == (n, rest)
  {
    DigitsRead(n, rest);
  }

  lemma NegativeRead(id: Id, rest: string)
    requires id < 0 && (rest != "" ==> !IsDigit(rest[0]))
    ensures Symbol(id)[1..] == "-" + Digits(-id) && ReadId("-" + Digits(-id) + rest) == (id, rest)
  {
    DigitsRead(-id, rest);
    assert ("-" + Digits(-id) + rest)[1..] == Digits(-id) + rest;
  }

  lemma DigitsRead(n: nat, rest: string)
    requires rest != "" ==> !IsDigit(rest[0])
    ensures var s := Digits(n) + rest;
            && DigitRun(s) == |Digits(n)| && s[..DigitRun(s)] == Digits(n) && s[DigitRun(s)..] == rest
            && Value(s[..DigitRun(s)]) == n && s[0] != '-'
  {
    DigitRunAppend(Digits(n), rest);
    ValueOfDigits(n);
    assert IsDigit(Digits(n)[0]) && (Digits(n) + rest)[0] == Digits(n)[0];
    assert (Digits(n) + rest)[..|Digits(n)|] == Digits(n);
  }

  // ---------------------------------------------------------------- components

  // A component to make: its constructor, whether hidden, and its mode if any.
  datatype Clone = Clone(id: Id, fn: string, hidden: bool, mode: string)

  function CloneOf(c: Component): Clone {
    Clone(c.id, MakeFn(c), c.hidden, if c.mode == "unspecified" then "" else c.mode)
  }

  // The constructors by category, but for the inverters.
  const CONSTRUCTORS := map[
    "grid" := "make-grid-connection-point", "meter" := "make-meter", "battery" := "make-battery",
    "ev-charger" := "make-ev-charger", "chp" := "make-chp", "wind-turbine" := "make-wind-turbine",
    "steam-boiler" := "make-steam-boiler", "power-transformer" := "make-power-transformer", "breaker" := "make-breaker"]

  // A component is made with its category's constructor, an inverter with the one
  // for solar ones or the one for batteries.
  lemma MakeFnIs(c: Component)
    ensures c.category in CONSTRUCTORS ==> MakeFn(c) == CONSTRUCTORS[c.category]
    ensures c.category == "inverter" && c.subtype == "solar" ==> MakeFn(c) == "make-solar-inverter"
    ensures c.category == "inverter" && c.subtype != "solar" ==> MakeFn(c) == "make-battery-inverter"
    ensures c.category !in CONSTRUCTORS && c.category != "inverter" ==> MakeFn(c) == "null"
  {
  }

  const HIDDEN := " :hidden t"
  const MODE := " :operational-mode '"

  function ReadClone(id: Id, body: string): Clone {
    var k := Until(body, ' ');
    var flags := body[k..];
    var hidden := StartsWith(flags, HIDDEN);
    var rest := if hidden then flags[|HIDDEN|..] else flags;
    Clone(id, body[..k], hidden, if StartsWith(rest, MODE) then rest[|MODE|..] else "")
  }

  // A mode that does not end the form it is written in.
  predicate PlainMode(c: Component) { ')' !in c.mode }

  lemma MakeFnHasNoSpace(c: Component)
    ensures ' ' !in MakeFn(c)
  {
  }

  lemma MakeFnHasNoBracket(c: Component)
    ensures ')' !in MakeFn(c)
  {
  }

  function ModeFlag(c: Component): string {
    if c.mode != "" && c.mode != "unspecified" then MODE + c.mode else ""
  }

  lemma CloneRead(c: Component)
    ensures ReadClone(c.id, MakeFn(c) + Flags(c)) == CloneOf(c)
  {
    MakeFnHasNoSpace(c);
    assert Flags(c) == (if c.hidden then HIDDEN else "") + ModeFlag(c);
    UntilIs(MakeFn(c), ' ', Flags(c));
    if c.hidden {
      Starts(HIDDEN, ModeFlag(c));
    } else {
      assert Flags(c) == ModeFlag(c);
      NotHidden(c);
    }
    if ModeFlag(c) != "" { Starts(MODE, c.mode); }
  }

  lemma NotHidden(c: Component)
    ensures !StartsWith(ModeFlag(c), HIDDEN)
  {
    if |ModeFlag(c)| >= |HIDDEN| {
      assert ModeFlag(c)[2] == 'o' && HIDDEN[2] == 'h' && ModeFlag(c)[..|HIDDEN|][2] == ModeFlag(c)[2];
    }
  }

  // A binding, and what follows it.
  function ReadBinding(s: string): (r: Option<(Clone, string)>)
    ensures r.Some? ==> |r.value.1| < |s|
  {
    if !StartsWith(s, "(m") then None
    else
      var (id, r) := ReadId(s[2..]);
      if !StartsWith(r, " (") then None
      else
        var k := Until(r[2..], ')');
        var clone, after := ReadClone(id, r[2..][..k]), r[2..][k..];
        if StartsWith(after, "))") then Some((clone, after[2..])) else None
  }

  // Bindings with a blank between each two.
  function ReadBindings(s: string): (seq<Clone>, string)
    decreases |s|
  {
    var first := ReadBinding(s);
    if first.None? then ([], s)
    else if StartsWith(first.value.1, " ") then
      var (more, end) := ReadBindings(first.value.1[1..]);
      ([first.value.0] + more, end)
    else ([first.value.0], first.value.1)
  }

  function Clones(bs: seq<Component>): seq<Clone> { seq(|bs|, i requires 0 <= i < |bs| => CloneOf(bs[i])) }

  lemma BindingRead(c: Component, rest: string)
    requires PlainMode(c)
    ensures ReadBinding(BindingText(c) + rest) == Some((CloneOf(c), rest))
  {
    var body := MakeFn(c) + Flags(c);
    var inner := body + ("))" + rest);
    BindingParts(c, rest);
    IdRead(c.id, " (" + inner);
    Starts("(m", Symbol(c.id)[1..] + (" (" + inner));
    Starts(" (", inner);
    BodyHasNoBracket(c);
    UntilIs(body, ')', "))" + rest);
    Starts("))", rest);
    CloneRead(c);
  }

  lemma BindingParts(c: Component, rest: string)
    ensures BindingText(c) + rest == "(m" + (Symbol(c.id)[1..] + (" (" + (MakeFn(c) + Flags(c) + ("))" + rest))))
  {
    assert Symbol(c.id) == "m" + Symbol(c.id)[1..];
  }

  lemma BodyHasNoBracket(c: Component)
    requires PlainMode(c)
    ensures ')' !in MakeFn(c) + Flags(c)
  {
    MakeFnHasNoBracket(c);
  }

  lemma {:induction false} BindingsRead(bs: seq<Component>, rest: string, s: string)
    requires (forall c | c in bs :: PlainMode(c)) && rest != "" && rest[0] == ')'
    requires s == Join(BindingTexts(bs)) + rest
    ensures ReadBindings(s) == (Clones(bs), rest)
    decreases |bs|
  {
    if bs == [] {
      assert BindingTexts(bs) == [] && Clones(bs) == [] && s == rest;
      NoBinding(rest);
    } else {
      assert bs[0] in bs;
      FirstBinding(bs, rest);
      FirstClone(bs);
      if |bs| == 1 {
        BindingRead(bs[0], rest);
        BindingsEnd(s, CloneOf(bs[0]), rest);
        assert Clones(bs) == [CloneOf(bs[0])];
      } else {
        var tail := Join(BindingTexts(bs[1..])) + rest;
        BindingsRead(bs[1..], rest, tail);
        BindingRead(bs[0], " " + tail);
        BindingsGoOn(s, CloneOf(bs[0]), tail);
      }
    }
  }

  lemma FirstClone(bs: seq<Component>)
    requires bs != []
    ensures Clones(bs) == [CloneOf(bs[0])] + Clones(bs[1..])
  {
  }

  lemma NoBinding(rest: string)
    requires rest != "" && rest[0] == ')'
    ensures ReadBinding(rest) == None
  {
    assert !StartsWith(rest, "(m") by { if |rest| > 1 { assert rest[..2][0] == ')'; } }
  }

  lemma BindingsGoOn(s: string, c: Clone, tail: string)
    requires ReadBinding(s) == Some((c, " " + tail))
    ensures ReadBindings(s) == ([c] + ReadBindings(tail).0, ReadBindings(tail).1)
  {
    Starts(" ", tail);
  }

  lemma BindingsEnd(s: string, c: Clone, rest: string)
    requires ReadBinding(s) == Some((c, rest)) && rest != "" && rest[0] == ')'
    ensures ReadBindings(s) == ([c], rest)
  {
  }

  // The first binding, and the rest of the list.
  lemma FirstBinding(bs: seq<Component>, rest: string)
    requires bs != []
    ensures Join(BindingTexts(bs)) + rest
         == BindingText(bs[0]) + if |bs| == 1 then rest else " " + (Join(BindingTexts(bs[1..])) + rest)
  {
    JoinFirst(BindingTexts(bs), rest);
    assert BindingTexts(bs)[1..] == BindingTexts(bs[1..]) && BindingTexts(bs)[0] == BindingText(bs[0]);
  }

  lemma JoinFirst(parts: seq<string>, rest: string)
    requires parts != []
    ensures Join(parts) + rest == if |parts| == 1 then parts[0] + rest else parts[0] + (" " + (Join(parts[1..]) + rest))
  {
  }

  // ------------------------------------------------------------------- joints

  function ReadJoint(s: string): (r: Option<(Joint, string)>)
    ensures r.Some? ==> |r.value.1| < |s|
  {
    if !StartsWith(s, CONNECT) then None
    else
      var (from, r) := ReadId(s[|CONNECT|..]);
      if !StartsWith(r, " m") then None
      else
        var (to, after) := ReadId(r[2..]);
        if StartsWith(after, ")") then Some((Joint(from, to), after[1..])) else None
  }

  const CONNECT := "(connect m"

  function ReadJoints(s: string): (seq<Joint>, string)
    decreases |s|
  {
    var first := ReadJoint(s);
    if first.None? then ([], s)
    else if StartsWith(first.value.1, " ") then
      var (more, end) := ReadJoints(first.value.1[1..]);
      ([first.value.0] + more, end)
    else ([first.value.0], first.value.1)
  }

  lemma JointRead(j: Joint, rest: string)
    ensures ReadJoint(ConnectText(j) + rest) == Some((j, rest))
  {
    var second := Symbol(j.to)[1..] + (")" + rest);
    JointParts(j, rest);
    IdRead(j.to, ")" + rest);
    IdRead(j.from, " m" + second);
    Starts(CONNECT, Symbol(j.from)[1..] + (" m" + second));
    Starts(" m", second);
    Starts(")", rest);
  }

  lemma JointParts(j: Joint, rest: string)
    ensures ConnectText(j) + rest == CONNECT + (Symbol(j.from)[1..] + (" m" + (Symbol(j.to)[1..] + (")" + rest))))
  {
    assert Symbol(j.from) == "m" + Symbol(j.from)[1..] && Symbol(j.to) == "m" + Symbol(j.to)[1..];
  }

  lemma JointsGoOn(s: string, j: Joint, tail: string)
    requires ReadJoint(s) == Some((j, " " + tail))
    ensures ReadJoints(s) == ([j] + ReadJoints(tail).0, ReadJoints(tail).1)
  {
    Starts(" ", tail);
  }

  lemma JointsEnd(s: string, j: Joint, rest: string)
    requires ReadJoint(s) == Some((j, rest)) && rest != "" && rest[0] == ')'
    ensures ReadJoints(s) == ([j], rest)
  {
  }

  lemma FirstJoint(js: seq<Joint>, rest: string)
    requires js != []
    ensures Join(ConnectTexts(js)) + rest
         == ConnectText(js[0]) + if |js| == 1 then rest else " " + (Join(ConnectTexts(js[1..])) + rest)
  {
    JoinFirst(ConnectTexts(js), rest);
    assert ConnectTexts(js)[1..] == ConnectTexts(js[1..]) && ConnectTexts(js)[0] == ConnectText(js[0]);
  }

  lemma {:induction false} JointsRead(js: seq<Joint>, rest: string, s: string)
    requires js != [] && rest != "" && rest[0] == ')' && s == Join(ConnectTexts(js)) + rest
    ensures ReadJoints(s) == (js, rest)
    decreases |js|
  {
    FirstJoint(js, rest);
    if |js| == 1 {
      JointRead(js[0], rest);
      JointsEnd(s, js[0], rest);
      assert js == [js[0]];
    } else {
      var tail := Join(ConnectTexts(js[1..])) + rest;
      JointsRead(js[1..], rest, tail);
      JointRead(js[0], " " + tail);
      JointsGoOn(s, js[0], tail);
      FirstOf(js);
    }
  }

  lemma FirstOf(js: seq<Joint>)
    requires js != []
    ensures [js[0]] + js[1..] == js
  {
  }

  // ------------------------------------------------------------------ the form

  const LET := "(let* ("

  // What the form makes, in order, and what it connects, in order.
  function ReadSource(s: string): (seq<Clone>, seq<Joint>) {
    if !StartsWith(s, LET) then ([], [])
    else
      var (clones, r) := ReadBindings(s[|LET|..]);
      if !StartsWith(r, ") ") then (clones, []) else (clones, ReadJoints(r[2..]).0)
  }

  // The form of a paste reads back as its components and joints.
  lemma SourceReads(p: Paste)
    requires forall c | c in p.bindings :: PlainMode(c)
    ensures ReadSource(Source(p)) == (Clones(p.bindings), p.connects)
  {
    var connects := Join(ConnectTexts(p.connects));
    var tail := (if connects == "" then "t" else connects) + ")";
    var list := Join(BindingTexts(p.bindings)) + (") " + tail);
    SourceParts(p, tail, list);
    BindingsRead(p.bindings, ") " + tail, list);
    AllJointsRead(p.connects, connects, tail);
    FormReads(list, Clones(p.bindings), tail, p.connects);
  }

  lemma SourceParts(p: Paste, tail: string, list: string)
    requires tail == (if Join(ConnectTexts(p.connects)) == "" then "t" else Join(ConnectTexts(p.connects))) + ")"
    requires list == Join(BindingTexts(p.bindings)) + (") " + tail)
    ensures Source(p) == LET + list
  {
  }

  lemma FormReads(list: string, clones: seq<Clone>, tail: string, joints: seq<Joint>)
    requires ReadBindings(list) == (clones, ") " + tail) && ReadJoints(tail).0 == joints
    ensures ReadSource(LET + list) == (clones, joints)
  {
    Starts(LET, list);
    Starts(") ", tail);
  }

  lemma AllJointsRead(js: seq<Joint>, connects: string, tail: string)
    requires connects == Join(ConnectTexts(js)) && tail == (if connects == "" then "t" else connects) + ")"
    ensures ReadJoints(tail).0 == js
  {
    if js == [] {
      assert ConnectTexts(js) == [] && |tail| == 2 && |CONNECT| == 10;
    } else {
      JoinHasText(js);
      JointsRead(js, ")", tail);
    }
  }

  lemma JoinHasText(js: seq<Joint>)
    requires js != []
    ensures Join(ConnectTexts(js)) != ""
  {
    assert ConnectTexts(js)[0] == ConnectText(js[0]) && ConnectText(js[0]) != "";
  }
}
