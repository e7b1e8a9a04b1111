// The clipboard paste (ui-assets/paste-forms.js): the copied components in an
// order that binds children before their parents, and the form that binds them
// and joins them again.
module PasteForms {
  import opened Graph
  import opened FlowDepths
  import Decimal

  datatype Component = Component(id: Id, category: string, subtype: string, hidden: bool, mode: string)

  datatype Joint = Joint(from: Id, to: Id)

  // --------------------------------------------------------------- the graph

  // Where the joints out of `id` lead, in their order.
  function Targets(joints: seq<Joint>, id: Id): seq<Id> {
    if joints == [] then []
    else
      var j := joints[|joints| - 1];
      Targets(joints[..|joints| - 1], id) + (if j.from == id then [j.to] else [])
  }

  lemma {:induction false} TargetsAre(joints: seq<Joint>, id: Id, to: Id)
    ensures to in Targets(joints, id) <==> Joint(id, to) in joints
  {
    if joints != [] {
      var last := |joints| - 1;
      assert joints == joints[..last] + [joints[last]];
      TargetsAre(joints[..last], id, to);
    }
  }

  // children.get(id) ?? []
  function Kids(children: map<Id, seq<Id>>, id: Id): seq<Id> {
    if id in children then children[id] else []
  }

  method ChildLists(joints: seq<Joint>) returns (children: map<Id, seq<Id>>)
    ensures forall id :: Kids(children, id) == Targets(joints, id)
  {
    children := map[];
    for k := 0 to |joints|
      invariant forall id :: Kids(children, id) == Targets(joints[..k], id)
    {
      var j := joints[k];
      assert joints[..k + 1][..k] == joints[..k] && joints[..k + 1][k] == j;
      if j.from !in children { children := children[j.from := []]; }
      children := children[j.from := children[j.from] + [j.to]];
    }
    assert joints[..|joints|] == joints;
  }

  // The graph whose "parents" are the children: a walk in it climbs from a node
  // to one that reaches it.
  ghost function Climb(ids: set<Id>, children: map<Id, seq<Id>>): Parents {
    map id | id in ids :: Kids(children, id)
  }

  // ------------------------------------------------------------------ the walk

  ghost predicate Fresh(ordered: seq<Id>) { forall i, j | 0 <= i < j < |ordered| :: ordered[i] != ordered[j] }

  // Every node put out has its children before it.
  ghost predicate KidsBefore(g: Parents, ordered: seq<Id>) {
    forall i, c | 0 <= i < |ordered| && Edge(g, c, ordered[i]) :: c in ordered[..i]
  }

  // What is seen is put out already, or is on the way down to the node at hand;
  // the children of what is put out are seen.
  ghost predicate Sound(g: Parents, seen: set<Id>, ordered: seq<Id>, path: seq<Id>) {
    && Closed(g) && seen <= g.Keys && Fresh(ordered)
    && (forall id :: id in seen <==> id in ordered || id in path)
    && (forall id | id in path :: id !in ordered)
    && (forall id, c | id in ordered && Edge(g, c, id) :: c in seen)
    && (Acyclic(g) ==> KidsBefore(g, ordered))
  }

  lemma SoundEnter(g: Parents, seen: set<Id>, ordered: seq<Id>, path: seq<Id>, id: Id)
    requires Sound(g, seen, ordered, path) && id in g && id !in seen
    ensures Sound(g, seen + {id}, ordered, [id] + path)
  {
  }

  lemma SoundLeave(g: Parents, seen: set<Id>, ordered: seq<Id>, path: seq<Id>, id: Id)
    requires Sound(g, seen, ordered, [id] + path) && IsWalk(g, [id] + path)
    requires id !in path && forall c | Edge(g, c, id) :: c in seen
    ensures Sound(g, seen, ordered + [id], path)
  {
    var out := ordered + [id];
    assert id in [id] + path;
    if Acyclic(g) {
      forall i, c | 0 <= i < |out| && Edge(g, c, out[i]) ensures c in out[..i] {
        if i < |ordered| {
          assert out[..i] == ordered[..i];
        } else {
          NotOnTheWay(g, [id] + path, c);
          assert out[..i] == ordered;
        }
      }
    }
  }

  // On an acyclic graph no child of the node at hand is above it.
  lemma NotOnTheWay(g: Parents, path: seq<Id>, c: Id)
    requires Closed(g) && Acyclic(g) && IsWalk(g, path) && Edge(g, c, path[0])
    ensures c !in path
  {
    assert c in g[path[0]] && c in g;
    WalkPrepend(g, c, path);
    NoReturn(g, c, path);
  }

  lemma NoReturn(g: Parents, c: Id, path: seq<Id>)
    requires IsWalk(g, [c] + path)
    ensures c in path ==> !Acyclic(g)
  {
    if c in path { ReturnIsCycle(g, c, path); }
  }

  ghost predicate Reaches(g: Parents, root: Id, id: Id) {
    exists w :: IsWalk(g, w) && w[0] == id && w[|w| - 1] == root
  }

  class Walk {
    const children: map<Id, seq<Id>>
    ghost const g: Parents
    var seen: set<Id>
    var ordered: seq<Id>

    constructor (ids: set<Id>, children: map<Id, seq<Id>>)
      requires Closed(Climb(ids, children))
      ensures this.children == children && g == Climb(ids, children)
      ensures seen == {} && ordered == [] && Valid([])
    {
      this.children := children;
      g := Climb(ids, children);
      seen := {};
      ordered := [];
    }

    ghost predicate Valid(path: seq<Id>)
      reads this
    {
      && Sound(g, seen, ordered, path)
      && forall id | id in g :: g[id] == Kids(children, id)
    }

    // What a visit adds: it keeps what was there, and everything new hangs below
    // `root`.
    ghost predicate Adds(wasSeen: set<Id>, was: seq<Id>, root: Id)
      reads this
    {
      && wasSeen <= seen && was <= ordered
      && forall id | id in seen && id !in wasSeen :: Reaches(g, root, id)
    }

    method Visit(id: Id, ghost path: seq<Id>, ghost root: Id)
      requires Valid(path) && id in g
      requires IsWalk(g, [id] + path) && ([id] + path)[|path|] == root
      modifies this
      ensures Valid(path) && Adds(old(seen), old(ordered), root) && id in seen
      decreases |g.Keys - seen|, 0
    {
      if id in seen { return; }
      Fewer(g.Keys, seen, seen + {id}, id);
      SoundEnter(g, seen, ordered, path, id);
      ghost var was := ordered;
      seen := seen + {id};
      assert Reaches(g, root, id);
      VisitKids(id, path, root);
      SoundLeave(g, seen, ordered, path, id);
      ordered := ordered + [id];
    }

    // One more root of the sweep.
    method VisitRoot(id: Id, ghost k: nat, ghost roots: seq<Id>)
      requires Valid([]) && id in g && k < |roots| && roots[k] == id && Sweeping(g, roots, k, seen, ordered)
      modifies this
      ensures Valid([]) && Sweeping(g, roots, k + 1, seen, ordered)
    {
      ghost var was, wasSeen := ordered, seen;
      Visit(id, [], id);
      SweepingNext(g, roots, k, wasSeen, was, seen, ordered);
    }

    method VisitKids(id: Id, ghost path: seq<Id>, ghost root: Id)
      requires Valid([id] + path) && id in g && IsWalk(g, [id] + path) && ([id] + path)[|path|] == root
      modifies this
      ensures Valid([id] + path) && Adds(old(seen), old(ordered), root)
      ensures forall c | Edge(g, c, id) :: c in seen
      decreases |g.Keys - seen|, 1
    {
      var kids := Kids(children, id);
      for k := 0 to |kids|
        invariant Valid([id] + path) && Adds(old(seen), old(ordered), root)
        invariant forall j | 0 <= j < k :: kids[j] in seen
      {
        assert Edge(g, kids[k], id);
        WalkPrepend(g, kids[k], [id] + path);
        FewerOrEqual(g.Keys, old(seen), seen);
        Visit(kids[k], [id] + path, root);
      }
    }
  }

  // ----------------------------------------------------------------- the sweep

  // Hangs below one of `roots`, or is one.
  ghost predicate Below(g: Parents, roots: seq<Id>, id: Id) {
    exists k :: 0 <= k < |roots| && Reaches(g, roots[k], id)
  }

  ghost predicate Holds(g: Parents, roots: seq<Id>, out: seq<Id>) {
    forall id :: id in out <==> Below(g, roots, id)
  }

  // After the first `k` roots exactly what hangs below them has come out.
  ghost predicate SweptTo(g: Parents, roots: seq<Id>, k: nat, ordered: seq<Id>)
    requires k <= |roots|
  {
    exists n :: 0 <= n <= |ordered| && Holds(g, roots[..k], ordered[..n])
  }

  ghost predicate Swept(g: Parents, roots: seq<Id>, k: nat, ordered: seq<Id>)
    requires k <= |roots|
  {
    forall i | 0 <= i <= k :: SweptTo(g, roots, i, ordered)
  }

  lemma {:induction false} ClosedHolds(g: Parents, out: set<Id>, w: seq<Id>)
    requires IsWalk(g, w) && w[|w| - 1] in out
    requires forall id, c | id in out && Edge(g, c, id) :: c in out
    ensures w[0] in out
    decreases |w|
  {
    if |w| > 1 {
      LastEdge(g, w);
      WalkSlice(g, w, 0, |w| - 1);
      assert Edge(g, w[|w| - 2], w[|w| - 1]);
      ClosedHolds(g, out, w[0..|w| - 1]);
    }
  }

  lemma SweepOne(g: Parents, roots: seq<Id>, k: nat, was: set<Id>, seen: set<Id>, out: seq<Id>)
    requires k < |roots| && was <= seen && (forall id :: id in seen <==> id in out)
    requires forall id :: id in was <==> Below(g, roots[..k], id)
    requires forall id, c | id in seen && Edge(g, c, id) :: c in seen
    requires roots[k] in seen && forall id | id in seen && id !in was :: Reaches(g, roots[k], id)
    ensures Holds(g, roots[..k + 1], out)
  {
    forall id ensures id in out <==> Below(g, roots[..k + 1], id) {
      BelowOneMore(g, roots, k, id);
      if Reaches(g, roots[k], id) {
        var w :| IsWalk(g, w) && w[0] == id && w[|w| - 1] == roots[k];
        ClosedHolds(g, seen, w);
      }
    }
  }

  lemma BelowOneMore(g: Parents, roots: seq<Id>, k: nat, id: Id)
    requires k < |roots|
    ensures Below(g, roots[..k + 1], id) <==> Below(g, roots[..k], id) || Reaches(g, roots[k], id)
  {
    var r, s := roots[..k], roots[..k + 1];
    assert s[k] == roots[k] && forall j | 0 <= j < k :: s[j] == r[j];
  }

  lemma SweptMore(g: Parents, roots: seq<Id>, k: nat, was: seq<Id>, out: seq<Id>)
    requires k < |roots| && was <= out && Swept(g, roots, k, was) && Holds(g, roots[..k + 1], out)
    ensures Swept(g, roots, k + 1, out)
  {
    forall i | 0 <= i <= k + 1 ensures SweptTo(g, roots, i, out) {
      if i == k + 1 {
        assert out[..|out|] == out;
      } else {
        assert SweptTo(g, roots, i, was);
        var n :| 0 <= n <= |was| && Holds(g, roots[..i], was[..n]);
        assert out[..n] == was[..n];
      }
    }
  }

  function Ids(components: seq<Component>): seq<Id> {
    seq(|components|, i requires 0 <= i < |components| => components[i].id)
  }

  ghost function JointGraph(components: seq<Component>, joints: seq<Joint>): Parents {
    map id | id in IdSet(components) :: Targets(joints, id)
  }

  function IdSet(components: seq<Component>): set<Id> { set c | c in components :: c.id }

  lemma IdSetIs(components: seq<Component>)
    ensures forall id :: id in IdSet(components) <==> id in Ids(components)
  {
    forall id | id in IdSet(components) ensures id in Ids(components) {
      var k :| 0 <= k < |components| && components[k].id == id;
      assert Ids(components)[k] == id;
    }
  }

  ghost predicate Within(components: seq<Component>, joints: seq<Joint>) {
    forall j | j in joints :: j.from in Ids(components) && j.to in Ids(components)
  }

  lemma WithinCloses(components: seq<Component>, joints: seq<Joint>)
    requires Within(components, joints)
    ensures Closed(JointGraph(components, joints))
    ensures forall from, to :: Edge(JointGraph(components, joints), to, from) <==> Joint(from, to) in joints
  {
    var g := JointGraph(components, joints);
    IdSetIs(components);
    forall from, to ensures Edge(g, to, from) <==> Joint(from, to) in joints { TargetsAre(joints, from, to); }
    forall id, q | id in g && q in g[id] ensures q in g {
      assert Edge(g, q, id);
    }
  }

  // The first `k` roots are swept and nothing is left half done.
  ghost predicate Sweeping(g: Parents, roots: seq<Id>, k: nat, seen: set<Id>, ordered: seq<Id>)
    requires k <= |roots|
  {
    && (forall j | 0 <= j < k :: roots[j] in seen)
    && (forall id :: id in seen <==> Below(g, roots[..k], id))
    && Swept(g, roots, k, ordered)
  }

  lemma SweepingNext(g: Parents, roots: seq<Id>, k: nat, wasSeen: set<Id>, was: seq<Id>, seen: set<Id>, ordered: seq<Id>)
    requires k < |roots| && Sweeping(g, roots, k, wasSeen, was) && Sound(g, seen, ordered, [])
    requires wasSeen <= seen && was <= ordered && roots[k] in seen
    requires forall id | id in seen && id !in wasSeen :: Reaches(g, roots[k], id)
    ensures Sweeping(g, roots, k + 1, seen, ordered)
  {
    SweepOne(g, roots, k, wasSeen, seen, ordered);
    SweptMore(g, roots, k, was, ordered);
  }

  lemma SweepingNone(g: Parents, roots: seq<Id>)
    ensures Sweeping(g, roots, 0, {}, [])
  {
    assert Holds(g, roots[..0], [][..0]);
  }

  lemma SweepingAll(g: Parents, roots: seq<Id>, seen: set<Id>, ordered: seq<Id>)
    requires Sweeping(g, roots, |roots|, seen, ordered) && Sound(g, seen, ordered, [])
    requires forall id :: id in roots <==> id in g
    ensures forall id :: id in ordered <==> id in roots
  {
    forall id ensures id in ordered <==> id in roots {
      if id in roots {
        var j :| 0 <= j < |roots| && roots[j] == id;
      }
    }
  }

  lemma SweepGraph(components: seq<Component>, joints: seq<Joint>, children: map<Id, seq<Id>>)
    requires Within(components, joints) && forall id :: Kids(children, id) == Targets(joints, id)
    ensures JointGraph(components, joints) == Climb(IdSet(components), children)
    ensures Closed(JointGraph(components, joints))
    ensures forall id :: id in Ids(components) <==> id in JointGraph(components, joints)
  {
    WithinCloses(components, joints);
    IdSetIs(components);
  }

  // The ids in the order the walk leaves them.
  method WalkAll(components: seq<Component>, joints: seq<Joint>) returns (ordered: seq<Id>)
    requires Within(components, joints)
    ensures Ordered(components, joints, ordered)
  {
    var children := ChildLists(joints);
    ghost var g := JointGraph(components, joints);
    ghost var roots := Ids(components);
    SweepGraph(components, joints, children);
    var walk := new Walk(IdSet(components), children);
    SweepingNone(g, roots);
    for k := 0 to |components|
      invariant walk.g == g && walk.Valid([])
      invariant Sweeping(g, roots, k, walk.seen, walk.ordered)
    {
      assert components[k].id == roots[k] && roots[k] in roots;
      walk.VisitRoot(components[k].id, k, roots);
    }
    SweepingAll(g, roots, walk.seen, walk.ordered);
    ordered := walk.ordered;
  }

  // Each component once; on an acyclic selection children before their parents;
  // and what hangs below an earlier component of the selection before the rest.
  ghost predicate Ordered(components: seq<Component>, joints: seq<Joint>, ordered: seq<Id>) {
    var g := JointGraph(components, joints);
    && Fresh(ordered)
    && (forall id :: id in ordered <==> id in Ids(components))
    && (Acyclic(g) ==> KidsBefore(g, ordered))
    && Swept(g, Ids(components), |Ids(components)|, ordered)
  }

  // The component an id stands for: the last in the list, as in a Map.
  function ById(components: seq<Component>, id: Id): (c: Component)
    requires id in Ids(components)
    ensures c in components && c.id == id
  {
    var last := components[|components| - 1];
    if last.id == id then last
    else
      assert Ids(components) == Ids(components[..|components| - 1]) + [last.id];
      ById(components[..|components| - 1], id)
  }

  // --------------------------------------------------------------- the source

  // What the form is made of: the bindings in order, then the joints.
  datatype Paste = Paste(bindings: seq<Component>, connects: seq<Joint>)

  // The joints with both ends among `ids`, in their order.
  function Kept(joints: seq<Joint>, ids: seq<Id>): (kept: seq<Joint>)
    ensures forall j :: j in kept <==> j in joints && j.from in ids && j.to in ids
  {
    if joints == [] then []
    else
      var front, last := joints[..|joints| - 1], joints[|joints| - 1];
      assert joints == front + [last];
      Kept(front, ids) + (if last.from in ids && last.to in ids then [last] else [])
  }

  method MakePaste(components: seq<Component>, joints: seq<Joint>) returns (p: Paste)
    ensures p.connects == Kept(joints, Ids(components))
    ensures forall j | j in p.connects :: j.from in Ids(p.bindings) && j.to in Ids(p.bindings)
    ensures Ordered(components, p.connects, Ids(p.bindings))
    ensures forall c | c in p.bindings :: c.id in Ids(components) && c == ById(components, c.id)
  {
    var copied := IdSet(components);
    IdSetIs(components);
    var kept := [];
    for k := 0 to |joints|
      invariant kept == Kept(joints[..k], Ids(components))
    {
      assert joints[..k + 1][..k] == joints[..k] && joints[..k + 1][k] == joints[k];
      if joints[k].from in copied && joints[k].to in copied { kept := kept + [joints[k]]; }
    }
    assert joints[..|joints|] == joints;
    var ordered := WalkAll(components, kept);
    var bindings := seq(|ordered|, i requires 0 <= i < |ordered| => 
      assert ordered[i] in ordered; ById(components, ordered[i]));
    assert Ids(bindings) == ordered;
    p := Paste(bindings, kept);
  }

  // The constructor a component is cloned with; `null` for a category without one.
  function MakeFn(c: Component): string {
    if c.category == "inverter" then
      if c.subtype == "solar" then "make-solar-inverter" else "make-battery-inverter"
    else if c.category == "grid" then "make-grid-connection-point"
    else if c.category == "meter" then "make-meter"
    else if c.category == "battery" then "make-battery"
    else if c.category == "ev-charger" then "make-ev-charger"
    else if c.category == "chp" then "make-chp"
    else if c.category == "wind-turbine" then "make-wind-turbine"
    else if c.category == "steam-boiler" then "make-steam-boiler"
    else if c.category == "power-transformer" then "make-power-transformer"
    else if c.category == "breaker" then "make-breaker"
    else "null"
  }

  function Flags(c: Component): string {
    (if c.hidden then " :hidden t" else "")
    + (if c.mode != "" && c.mode != "unspecified" then " :operational-mode '" + c.mode else "")
  }

  function Symbol(id: Id): string {
    "m" + (if id < 0 then "-" + Decimal.Digits(-id) else Decimal.Digits(id))
  }

  function Join(parts: seq<string>): string {
    if parts == [] then "" else if |parts| == 1 then parts[0] else parts[0] + " " + Join(parts[1..])
  }

  function BindingText(c: Component): string { "(" + Symbol(c.id) + " (" + MakeFn(c) + Flags(c) + "))" }

  function ConnectText(j: Joint): string { "(connect " + Symbol(j.from) + " " + Symbol(j.to) + ")" }

  function BindingTexts(bs: seq<Component>): seq<string> {
    seq(|bs|, i requires 0 <= i < |bs| => BindingText(bs[i]))
  }

  function ConnectTexts(js: seq<Joint>): seq<string> {
    seq(|js|, i requires 0 <= i < |js| => ConnectText(js[i]))
  }

  function Source(p: Paste): string {
    var bindings, connects := Join(BindingTexts(p.bindings)), Join(ConnectTexts(p.connects));
    "(let* (" + bindings + ") " + (if connects == "" then "t" else connects) + ")"
  }

  // Two ids never share a symbol, so the form binds each of its symbols once.
  lemma SymbolsDiffer(a: Id, b: Id)
    ensures Symbol(a) == Symbol(b) <==> a == b
  {
    if Symbol(a) == Symbol(b) {
      assert Symbol(a)[1..] == Symbol(b)[1..];
      SignsAgree(a, b);
      Decimal.ValueOfDigits(if a < 0 then -a else a);
      Decimal.ValueOfDigits(if b < 0 then -b else b);
      if a < 0 { assert Symbol(a)[2..] == Decimal.Digits(-a) && Symbol(b)[2..] == Decimal.Digits(-b); }
    }
  }

  lemma SignsAgree(a: Id, b: Id)
    requires Symbol(a) == Symbol(b)
    ensures a < 0 <==> b < 0
  {
    assert Symbol(a)[1] == '-' <==> a < 0 by { if a >= 0 { assert Symbol(a)[1] == Decimal.Digits(a)[0]; } }
    assert Symbol(b)[1] == '-' <==> b < 0 by { if b >= 0 { assert Symbol(b)[1] == Decimal.Digits(b)[0]; } }
  }

  // What a form is made of: the joints with both ends copied, in order, each component
  // copied once, as it was copied, in an order to bind them in.
  ghost predicate PasteOf(components: seq<Component>, joints: seq<Joint>, p: Paste) {
    && p.connects == Kept(joints, Ids(components))
    && (forall j | j in p.connects :: j.from in Ids(p.bindings) && j.to in Ids(p.bindings))
    && Ordered(components, p.connects, Ids(p.bindings))
    && (forall c | c in p.bindings :: c.id in Ids(components) && c == ById(components, c.id))
  }

  method PasteSource(components: seq<Component>, joints: seq<Joint>) returns (source: string)
    ensures exists p :: PasteOf(components, joints, p) && source == Source(p)
  {
    var p := MakePaste(components, joints);
    source := Source(p);
    assert PasteOf(components, joints, p);
  }
}
