# Macrocosim: a verified model

This project models parts of macrocosim, a simulator of electrical microgrids
with a browser front end, and proves what its code does. Four groups of code are
modelled, one Dafny module for each file or part of a file:

- **Protocols of the server.** `StartProtocol` is the start protocol of the
  microgrid runtimes: registry, status table, generations, the lock that
  serialises starts, server watchers, and reloads that may move a port under
  them; `MicrogridPorts` is which port each may have. `RegistrationListener` is
  the listener that starts what is registered, over a broadcast that drops old
  announcements. `DispatchStore` and
  `DispatchStream` are the dispatch store and its subscribe-then-snapshot
  streams; `DispatchPages` is the paging of lists. A protocol is a state machine
  whose steps end where a lock is let go or a task awaits; results are about
  every run. A class beside it carries the critical sections as methods.
- **The formula language.** `FormulaAst` is the grammar and the printer,
  `FormulaLexemes` what numbers and names are, `FormulaParser` the recursive descent
  over a mutable cursor, `FormulaRoundTrip` what printer and parser do to each
  other, `FormulaSign` the rendering of signs, `FormulaShown` the text it shows.
- **The topology canvas.** `FlowDepths`, `LayoutTree`, `TreeForest`,
  `LayoutMemo`, `TidyLayout`, `RadialLayout`, `LayoutCanvas` and
  `LayoutHierarchy` go from a graph, which may hold cycles, to the position of
  every node, and `LayoutGeometry` says where that is; `PasteForms` orders what is
  pasted and `PasteReader` reads its text back. `Graph` has walks and depths.
- **Scanners, state machines and searches.** `LispText` (what strings, comments and
  open brackets are), `LispScan` (two scans of Lisp text) and `FormElements` (the
  elements of a form), `Rainbow`, `RainbowPlaces` and `Html` (the highlighter),
  `ReplHistory` and `EmacsKeys`,
  `SampleRing` (rings of samples), `Zone` (wall times), `Placement` (free slots
  for cards), `Throttle` (coalescing timers). `Decimal`, `WhiteSpace`, `Sets` and
  `Wrappers` are shared.

A computation is a function, and a loop or an object that changes is a method or
class proved against it; the lemmas are about the function.

What is given from outside: white space and letters as predicates on characters,
sine and cosine and box sizes as functions, a zone as a function from instants to
offsets, what the operating system answers a bind with as part of the event.
Angles, positions and readings are exact reals; times are whole numbers.

Where the code does not do what it says, the code is modelled, with the exact
condition, and an example where the condition does not give one at sight:

- A negated literal (`- 5`) does not survive printing (`ui-assets/formula-ast.js`).
- An escaped newline in a string does not reset the column, so a form after it is
  indented too far (`ui-assets/repl-syntax.js`).
- A recorded address can change if it is port 0 (`src/runtime.rs`).
- The start of a day can be after the instant asked about, where a gap skips that
  day's midnight (`ui-assets/zone.js`).
- In a text that begins with a newline the line commands are wrong at its first
  two lines, because `lastIndexOf` reads a negative start as 0; and a kill joins
  across an edit that keeps caret and length (`ui-assets/repl-keys.js`).
- Two refreshes can be less than 300 ms apart: a message that comes after the end
  of a burst refreshes at once (`ui-assets/app.js`).
- The arc of 200 fails for a forest of one lone node (`ui-assets/topology.js`).
- A backfill is not the live history where a sample it leaves out would still be in
  its slot, at a second older than the newest 900 (`ui-assets/metrics-store.js`).
- Two microgrids can claim port 65535, when every port tried for a new one is taken
  (`src/sim/microgrids.rs`).
- The two scans of Lisp text disagree on square and curly brackets in code
  (`ui-assets/repl-symbols.js`, `ui-assets/repl-syntax.js`).

Verify with `dafny verify dfyconfig.toml`.

## Model

| member | source | states |
|---|---|---|
| `FormulaParser.Parser.Parse` | ui-assets/formula-ast.js:13-92 | The cursor machine, with its shared mutable cursor, ends on every string and computes the grammar function; the measure is the text left, which the branch that reads nothing leaves unchanged but never loops on |
| `FormulaParser.Parser.Expr` | ui-assets/formula-ast.js:31-38 | Reads a left-associative sum from where the cursor is and leaves the cursor where the grammar says |
| `FormulaParser.Parser.Args` | ui-assets/formula-ast.js:71-86 | Reads an argument list, commas, missing brackets and empty arguments included, as the grammar says |
| `FormulaLexemes.NumberTaken` | ui-assets/formula-ast.js:61-62 | The number pattern takes a number, the longest the text begins with, and nothing only when it begins with none; numbers being digits, then a point and digits if any, then an exponent if any, with a minus in front if any |
| `FormulaLexemes.WordTaken` | ui-assets/formula-ast.js:67-67 | The name pattern likewise takes the longest name, a letter and then letters and digits |
| `FormulaLexemes.LeadingBlanks` | ui-assets/formula-ast.js:15-17 | White space in front of an expression, however much, makes no difference to what is read |
| `FormulaRoundTrip.UnknownWhen` | ui-assets/formula-ast.js:46-89 | An atom is not understood exactly where none of the ways to begin one is there; then nothing is taken, and what is left is kept as it is |
| `FormulaRoundTrip.OpenBracketCloses` | ui-assets/formula-ast.js:48-54 | A bracket left open is closed by the end of the text |
| `FormulaRoundTrip.RoundTrip` | ui-assets/formula-ast.js:98-119 | Parsing what the printer prints for any well-formed tree gives the tree with negated literals folded; it gives the very tree if and only if it holds no negation of a non-negative literal |
| `FormulaRoundTrip.ParsedTextSettles` | ui-assets/formula-ast.js:94-119 | For any text the parser understands in full, one print settles it: parsing the print gives the folded tree, and printing again gives the same text |
| `FormulaRoundTrip.ExprRead` | ui-assets/formula-ast.js:31-38 | Whatever text is read, a tree without an unknown part has the shape the printer can be undone on |
| `FormulaRoundTrip.NegatedLiteralExample` | ui-assets/formula-ast.js:61-66 | The text "- 5" is a negation to the parser and prints as a literal: the exception of the round trip is real |
| `FormulaSign.WrappersShowParity` | ui-assets/formula-ast.js:128-187 | Reading the rendered HTML back, the innermost wrapper around each reference names the parity of the subtractions and negations above it |
| `FormulaSign.WrappersTellDirection` | ui-assets/formula-ast.js:132-140 | Over sums, differences, negations, brackets, MAX, MIN and COALESCE with fixed availability: moving every reference the way its nearest wrapper points never lowers the value |
| `FormulaSign.WrappersTellChange` | ui-assets/formula-ast.js:132-140 | Over sums, differences and negations: moving one reading by d moves the value by exactly d or -d, as its nearest wrapper says |
| `FormulaShown.ShownIsPrint` | ui-assets/formula-ast.js:128-187 | The text a rendered formula shows is its print, once the arguments put on lines of their own are joined again |
| `FormulaShown.LinesWhen` | ui-assets/formula-ast.js:171-181 | The arguments of a call stay on one line if and only if there are two at most and each is a reference or a number |
| `LispScan.IndentForNewline` | ui-assets/repl-syntax.js:189-239 | The character loop, two-character escapes included, computes the walk the lemmas are about; the indent is two past the innermost open column |
| `LispScan.WalkIsOpen` | ui-assets/repl-syntax.js:189-239 | The forms the character scan ends with are exactly the brackets open at the cursor, strings and comments being what looking back over the text says they are |
| `LispScan.SameOpen` | ui-assets/repl-symbols.js:56-65 | For every text and cursor: the skipping scan and the character scan have the same forms open at every place up to the cursor, through strings, escapes, unterminated strings and comments, if and only if no bracket in code that is not a round one opens a form or closes one |
| `LispScan.SkipIsOpen` | ui-assets/repl-symbols.js:56-65 | So are those of the skipping scan, under that condition |
| `LispScan.RoundTextIsRound` | ui-assets/repl-symbols.js:56-65 | A text whose only brackets are round ones meets that condition at every cursor |
| `LispScan.SquareBracketsDiffer` | ui-assets/repl-syntax.js:230-234 | With a square bracket in code the two scans differ; one inside a string meets the condition |
| `LispScan.IndentColumns` | ui-assets/repl-syntax.js:205-238 | Each open form, the forms being the brackets in code that are open, is kept at its true column if and only if its line does not begin after a newline escaped in a string |
| `LispScan.IndentWithoutJoins` | ui-assets/repl-syntax.js:189-239 | When no string before the cursor has an escaped newline, every open form is kept at its true column |
| `LispScan.JoinedLineExample` | ui-assets/repl-syntax.js:206-210 | A form in column 1 that is kept at column 4, because an escaped newline does not reset the column |
| `LispScan.InnermostFormReads` | ui-assets/repl-symbols.js:66-101 | Inside the innermost open form each nested form is skipped to a real closing paren before the cursor, and no other closing paren is met |
| `LispScan.FormCloses` | ui-assets/repl-symbols.js:124-134 | The skip over a nested form ends on the paren that closes it, with the forms below it still open |
| `LispScan.FindStringEnd` | ui-assets/repl-symbols.js:109-115 | The loop finds the closing quote, past escapes, or the last place before the limit |
| `LispScan.StringEndCloses` | ui-assets/repl-symbols.js:109-115 | The end found is the first quote after the opening one with an even run of backslashes before it, or the last place before the limit when there is none |
| `LispScan.FindFormEnd` | ui-assets/repl-symbols.js:124-134 | The loop finds the closing paren the specification names |
| `LispScan.CallAtCursor` | ui-assets/repl-symbols.js:56-105 | The two loops give the head, the argument index and the finished argument texts of the innermost open form, and nothing where there is no form or no head |
| `FormElements.InnermostDivided` | ui-assets/repl-symbols.js:73-101 | What has been typed of the innermost form is divided into its elements: every place between them is blank, none is cut inside a string or a nested form, and each goes on to the next blank outside those |
| `FormElements.CallReads` | ui-assets/repl-symbols.js:95-105 | No call where there is no element or the first is a form or a string; otherwise the head is the first element, the arguments are those ended before the cursor, and the index counts one still being typed |
| `FlowDepths.FlowDepths` | ui-assets/topology.js:189-200 | Ends on every finite graph, cyclic or not; on an acyclic one each memoised depth is the length of the longest walk to its node, whatever order the nodes are asked in |
| `FlowDepths.Depths.DepthOf` | ui-assets/topology.js:191-197 | The memoised recursion: nothing noted changes, the node at hand is noted, and on an acyclic graph its depth is final |
| `Graph.DepthOfChild` | ui-assets/topology.js:184-195 | One more than the deepest parent is the length of the longest walk to a node |
| `LayoutTree.BuildTree` | ui-assets/topology.js:1212-1233 | Every node with parents among the given nodes hangs under its deepest, the smallest of those as deep; children and roots ascend; edges to other nodes count for nothing |
| `LayoutTree.OneTreeParent` | ui-assets/topology.js:1220-1232 | A node with a parent hangs under exactly one node and is no root; a node without is a root and hangs nowhere |
| `LayoutTree.OneWalk` | ui-assets/topology.js:1212-1233 | Whatever the graph, there is at most one walk down from a root to a node |
| `LayoutTree.NoTwice` | ui-assets/topology.js:1256-1262 | So no walk from a root meets a node twice: it cannot enter a tree cycle |
| `LayoutTree.WalksEnd` | ui-assets/topology.js:1287-1337 | No walk down is longer than the list of nodes, which bounds the unguarded recursions of the layouts |
| `LayoutTree.SpanningForest` | ui-assets/topology.js:1206-1211 | On an acyclic graph a walk from a root reaches each node, in as many steps as the node is deep |
| `TreeForest.RootsHold` | ui-assets/topology.js:1287-1344 | The forest the layouts recurse through holds exactly the nodes reached from a root, each once |
| `LayoutMemo.SubtreeDepth.Of` | ui-assets/topology.js:1254-1265 | The memoised subtree depth is the height of the branch, on every graph |
| `LayoutMemo.LeafCount.Of` | ui-assets/topology.js:1352-1358 | The memoised leaf count is that of the branch |
| `TidyLayout.ForestApart` | ui-assets/topology.js:1287-1344 | When each node's box fits in the block its row of children makes, and no lanes are nested in lanes, every box lies in its stretch and no two boxes of one column overlap over the whole forest, in every view |
| `TidyLayout.PlaceFits` | ui-assets/topology.js:1287-1337 | Each subtree so made lies inside its returned block, wherever it is placed, with room for its own box around its center |
| `TidyLayout.AllGrow` | ui-assets/topology.js:1269-1286 | A forest in which no node is larger than any of its children, such as one of boxes all alike, meets that condition on boxes |
| `TidyLayout.LargeParentFits` | ui-assets/topology.js:1333-1336 | So does a parent larger than each of its two children, over whose row its box fits |
| `TidyLayout.LargeParentOverlaps` | ui-assets/topology.js:1333-1336 | A parent larger than its row overlaps the node before it: without the condition boxes may overlap |
| `TidyLayout.LanesStayLevel` | ui-assets/topology.js:1313-1324 | The greedy lanes end no farther apart than the longest block in them, and the row ends where the longer does |
| `TidyLayout.LanesBeside` | ui-assets/topology.js:1313-1320 | All that is in the first of two lanes is more than a column before all that is in the second, when no lanes are nested in them |
| `TidyLayout.SecondLaneStands` | ui-assets/topology.js:1316-1320 | A node of the second lane stands one column past the highest branch of the row |
| `TidyLayout.PackAlternates` | ui-assets/topology.js:1298-1309 | Packed leaves stand in two staggered columns in turn |
| `TidyLayout.ParentIsCentered` | ui-assets/topology.js:1331-1335 | A parent stands midway between the outermost of its children's centers |
| `TidyLayout.HeightIs` | ui-assets/topology.js:1254-1265 | A leaf is 1 high, any other node one more than its highest child |
| `LayoutCanvas.Tidy.LayoutSubtree` | ui-assets/topology.js:1287-1337 | The recursion that fills the position map ends on every tree built and sets exactly the spots of the block, in order |
| `LayoutCanvas.Tidy.LaneKids` | ui-assets/topology.js:1313-1324 | The greedy loop over two lanes places each subtree at the shorter lane |
| `LayoutCanvas.Tidy.PackKids` | ui-assets/topology.js:1298-1312 | The loop over a large group of leaves fills the two staggered columns in turn |
| `LayoutCanvas.Radial.PlaceNode` | ui-assets/topology.js:1371-1381 | The radial recursion sets exactly the points of the sectors |
| `RadialLayout.RadialSectors` | ui-assets/topology.js:1371-1389 | Every sector is exactly the circle times its leaves over all leaves; the roots fill the circle, and the children of every node its sector: the first starts where it starts, each next one where the one before ends, the last ends where it ends; and of two nodes the later placed hangs below the earlier or starts where it has ended |
| `LayoutHierarchy.RadialNests` | ui-assets/topology.js:1371-1389 | On the tree of any graph a sector lies inside that of every node above it, and nodes unrelated by ancestry have disjoint sectors |
| `RadialLayout.OutermostArc` | ui-assets/topology.js:1361-1369 | On the outermost ring the arc for each leaf is at least 200, if and only if the forest is not one lone node |
| `LayoutHierarchy.LayoutHierarchy` | ui-assets/topology.js:1398-1425 | On every graph each node gets exactly one position: the ones a root reaches where the layout marks them, the hidden and unreached ones in a row below; on an acyclic graph every visible node is reached; up to one node nothing is placed |
| `LayoutHierarchy.PlaceIds` | ui-assets/topology.js:1287-1337 | A block holds one spot for each node of its branch, lanes and packed columns included |
| `LayoutHierarchy.StashIsRow` | ui-assets/topology.js:1412-1421 | The stash row runs from left to right, 220 apart, 100 below the lowest position |
| `LayoutHierarchy.MaxY` | ui-assets/topology.js:1415-1416 | The lowest position used, or 0 |
| `LayoutGeometry.BoxesApart` | ui-assets/topology.js:1269-1345 | On the canvas, under those conditions, any two boxes of one column, or of one row in the top-down view, are a gap of 22 or more apart |
| `LayoutGeometry.ColumnsShowDepth` | ui-assets/topology.js:1333-1344 | In the columns view every node stands 260 to the right for each step of the walk down to it |
| `LayoutGeometry.TidyStands` | ui-assets/topology.js:1282-1285 | Depth runs to the right in the lanes and columns views and down in the top-down view |
| `LayoutGeometry.RadialStands` | ui-assets/topology.js:1371-1374 | A node stands on the ring of its depth, at the middle of its sector |
| `LayoutGeometry.RingsGrow` | ui-assets/topology.js:1361-1369 | Each ring is 320 or more outside the one before, and only a lone root is in the middle |
| `PasteForms.Walk.Visit` | ui-assets/paste-forms.js:42-47 | The walk that marks on entry ends on every graph, puts out each node it newly sees once, and only what hangs below where it began |
| `PasteForms.WalkAll` | ui-assets/paste-forms.js:33-50 | Each component comes out once on any graph; on an acyclic one every child before all its parents; and after each component of the selection exactly what hangs below it and those before has come out |
| `PasteForms.NotOnTheWay` | ui-assets/paste-forms.js:42-47 | On an acyclic graph no child of the node at hand is still unfinished |
| `PasteForms.MakePaste` | ui-assets/paste-forms.js:57-72 | The joints kept are exactly those with both ends copied, in their order, so each names two symbols that are bound |
| `PasteForms.PasteSource` | ui-assets/paste-forms.js:57-87 | The text is made of the joints with both ends copied and of each component exactly as copied, once, children first where the selection is acyclic |
| `PasteReader.SourceReads` | ui-assets/paste-forms.js:71-87 | The text reads back as what to make, in order, each with its constructor, whether hidden and its mode, and what to connect, in order |
| `PasteReader.MakeFnIs` | ui-assets/paste-forms.js:6-21 | The constructor of each category, inverters by subtype, and none for any other |
| `PasteForms.SymbolsDiffer` | ui-assets/paste-forms.js:82-86 | Two components never share a symbol |
| `StartProtocol.InvKept` | src/runtime.rs:175-268 | Every event keeps: running implies an address; an attempt's record is Starting at its generation; watchers lag behind attempts; what a reload settled on moves no pinned port; declared and bound ports agree |
| `StartProtocol.RecordIsGuarded` | src/runtime.rs:250-257 | When a bind has worked the record is there, at the attempt's generation: the lookup cannot panic and Running is always set |
| `StartProtocol.OldWatcherIsIdle` | src/runtime.rs:344-365 | The end of a server of an older generation, or during a later attempt, changes nothing |
| `StartProtocol.LatestWatcherFails` | src/runtime.rs:344-365 | The end of the server of the record's own generation marks it failed, and changes nothing else |
| `StartProtocol.StartSucceeds` | src/runtime.rs:175-268 | A start that is tried and whose bind works: the record runs at the port bound, which is the one recorded, or chosen by the system, or declared; the generation is one more; nothing else changes |
| `StartProtocol.StartRefused` | src/runtime.rs:238-247 | A start whose bind is refused: the record fails, naming the port, and its address is as it was |
| `StartProtocol.ReportFails` | src/runtime.rs:238-247 | The report of a refused bind marks exactly the record of the attempt failed |
| `StartProtocol.StuckWhen` | src/runtime.rs:238-239 | An event leaves a record starting with no attempt in progress if and only if it drops the start at its bind |
| `StartProtocol.NeverStuck` | src/runtime.rs:175-268 | So over any run in which no start is dropped no record is starting but that of the attempt in progress |
| `StartProtocol.StartReplaced` | src/runtime.rs:190-197 | A start that finds another site in its record fails it for a new generation, and binds nothing |
| `StartProtocol.StartAnswered` | src/runtime.rs:186-199 | A start of a running microgrid, or of one that is not registered, is answered and changes nothing |
| `StartProtocol.RunGrows` | src/runtime.rs:84-93 | Over a whole run generations only grow, a record keeps its site, and an address once recorded stays, unless it was port 0 |
| `StartProtocol.OnlyZeroMoves` | src/runtime.rs:248-254 | An event moves a recorded address if and only if that is port 0 and a bind is told another |
| `StartProtocol.ZeroMoves` | src/runtime.rs:248-248 | A run in which it does: the first listener could not tell its port |
| `StartProtocol.DeclaredPortStays` | src/lisp/defuns/microgrids.rs:313-332 | With declared ports the address never changes and is the port the entry declares, now and later, whatever reloads come |
| `StartProtocol.PinnedPortStays` | src/runtime.rs:126-137 | No event moves the port of an entry whose runtime is bound or starting, short of removing it |
| `StartProtocol.StartAgain` | src/runtime.rs:189-218 | A later start is answered with, or binds again, the address first recorded |
| `StartProtocol.StartAnswers` | src/runtime.rs:186-231 | An answer from the table names an address; a start is tried if and only if there is no record or it is of the same site and not running, at a generation no watcher has |
| `StartProtocol.ReplacedStays` | src/runtime.rs:190-197 | The site-replaced error stays, whichever server ends after it |
| `StartProtocol.Inner.Enter` | src/runtime.rs:180-226 | The first critical section: one step of the protocol, with its reply |
| `StartProtocol.Inner.Record` | src/runtime.rs:248-267 | The second critical section: one step, and the record is Running |
| `StartProtocol.Inner.SetStatus` | src/runtime.rs:344-350 | Changes a status if and only if the record is of the given generation |
| `StartProtocol.Inner.DecidePort` | src/lisp/defuns/microgrids.rs:313-334 | The port a reload settles on, or the clash it is refused with: one step of the protocol |
| `StartProtocol.Inner.Register` | src/lisp/defuns/microgrids.rs:337-356 | A new microgrid gets the port it asks for, unless that clashes, or the next free one: one step of the protocol |
| `StartProtocol.ReloadMovesPort` | src/lisp/defuns/microgrids.rs:313-334 | A reload that asks for another port is refused where that is in use, keeps the one it has where the runtime holds it, and adopts it otherwise |
| `StartProtocol.ReloadKeepsPort` | src/lisp/defuns/microgrids.rs:313-334 | One that asks for none, or for the port it has, keeps it |
| `StartProtocol.CommitDeclares` | src/lisp/defuns/microgrids.rs:371-388 | What it settled on is what the entry then declares, and the site stays |
| `StartProtocol.RegisterDeclares` | src/lisp/defuns/microgrids.rs:336-388 | A new microgrid has a site of its own and the port it asks for, unless that is in use; then nothing changes |
| `StartProtocol.PortsStayApart` | src/sim/microgrids.rs:165-210 | An event leaves no two microgrids claiming one port, a reload under way included, if and only if it is not this: a new one asks for no port while every port tried is taken and the last port is a microgrid's |
| `StartProtocol.PortsRunOut` | src/sim/microgrids.rs:194-210 | A state and an event in which that happens: the search stops at port 65535 though it is taken |
| `StartProtocol.PortsApart` | src/lisp/defuns/microgrids.rs:313-363 | So over any run without that event no two microgrids ever claim one port |
| `MicrogridPorts.CheckPort` | src/sim/microgrids.rs:165-181 | Refuses a port if and only if another microgrid claims it, of which it names the lowest, or it is reserved |
| `MicrogridPorts.NextFreePortIn` | src/sim/microgrids.rs:194-210 | The walk over the ports in use ends at the first port tried that is free, the last port if there is none |
| `MicrogridPorts.NextFreeIsFree` | src/sim/microgrids.rs:183-210 | The port found is the first of those tried that is free; it is in use if and only if they all are, and then it is the last |
| `RegistrationListener.InvKept` | src/runtime.rs:274-297 | Every event keeps: each announcement has been followed by a start, or is still owed one |
| `RegistrationListener.NoneMissed` | src/runtime.rs:270-297 | Whenever the listener waits on an empty channel, every announcement ever made has been followed by a start of its microgrid, however many were dropped |
| `RegistrationListener.ReadsWhatIsKept` | src/runtime.rs:281-296 | A receiver at most 1024 announcements behind reads on, one further behind is told so |
| `RegistrationListener.EachStarted` | src/lisp/defuns/microgrids.rs:377-412 | So every registered microgrid has been started, but for one whose registration is still under way |
| `RegistrationListener.Listener.CatchUp` | src/runtime.rs:281-296 | With nothing new announced the loop ends, answers every announcement, and makes no more starts than the registry and the channel hold |
| `RegistrationListener.Listener.StartAll` | src/runtime.rs:301-308 | Starts every registered id once, in order |
| `DispatchStore.Store.Insert` | src/sim/dispatch.rs:141-149 | The dispatches of that microgrid with this one set and all others as they were, one broadcast, and the store is what its broadcasts add up to |
| `DispatchStore.Store.Replace` | src/sim/dispatch.rs:154-164 | Changes and broadcasts if and only if the dispatch is there |
| `DispatchStore.Store.Remove` | src/sim/dispatch.rs:167-182 | Removes and broadcasts if and only if it is there, and leaves no empty microgrid behind |
| `DispatchStore.Store.UpdateWith` | src/sim/dispatch.rs:229-245 | Read, change, stamp and broadcast in one step: the update time is now, the creation time stays, and the end is there exactly for a single run with a start and a duration within the calendar, a duration after the start |
| `DispatchStore.Store.Create` | src/sim/dispatch.rs:196-221 | Refused if and only if there is no start; otherwise a dispatch with an id no other has, stamped now, with an end exactly for a single run with a duration within the calendar, a duration after its start; inserted and broadcast |
| `DispatchStore.Store.SetActive` | src/sim/dispatch.rs:250-261 | Changes whether the dispatch is active and nothing else of its data |
| `DispatchStore.Store.ListMg` | src/sim/dispatch.rs:274-280 | Exactly the dispatches of a microgrid, lowest id first |
| `DispatchStream.Converges` | src/dispatch_server.rs:218-292 | In every interleaving, once the snapshot is taken and until the stream ends: the client's map with what it is owed folded in is exactly the store's map; and while the receiver has not fallen behind, all of that is in the channel, in hand or still in the broadcast ring |
| `DispatchStream.CaughtUp` | src/dispatch_server.rs:244-276 | With nothing on its way the client has exactly what the store has |
| `DispatchStream.ClientSeesHistory` | src/dispatch_server.rs:224-230 | Past the window between subscribing and the snapshot, the client only ever sees what the store once held, at or after the snapshot |
| `DispatchStream.SaidTwice` | src/dispatch_server.rs:227-229 | Changes folded a second time after themselves change nothing |
| `DispatchStream.WindowIsHarmless` | src/dispatch_server.rs:224-230 | The snapshot followed by the changes since subscribing folds to the store's history at every later point |
| `DispatchStream.WindowGoesBack` | src/dispatch_server.rs:227-229 | A run in which the window takes the client back to an older version, until the update comes again |
| `DispatchStream.LossEndsIt` | src/dispatch_server.rs:277-286 | DATA_LOSS is the last thing sent: no later step sends more |
| `DispatchStream.LaggedNeverReads` | src/dispatch_server.rs:273-288 | A receiver that fell behind reads nothing more, and stays behind until it reports the loss |
| `DispatchStream.LaggedStays` | src/dispatch_server.rs:273-288 | Over a whole run: a receiver that once fell behind stays where it is to the end |
| `DispatchStream.ReadsWhatIsKept` | src/dispatch_server.rs:268-276 | A receiver at most 256 changes behind reads on, one further behind is told so |
| `DispatchStream.InvKept` | src/dispatch_server.rs:218-292 | What every step of the store, the sender and the client keeps |
| `DispatchPages.FollowTokens` | src/dispatch_server.rs:510-537 | A client that echoes each token ends with the whole list, in order, nothing twice, in no more pages than it takes; for page size 0 that is one page |
| `DispatchPages.PageIs` | src/dispatch_server.rs:510-537 | A page is as many items as asked for from its offset on, or what is left, and its token names where it ends, if the list goes on |
| `DispatchPages.UnpagedIsAll` | src/dispatch_server.rs:524-530 | Without parameters, and for size 0, the answer is the whole list |
| `DispatchPages.TokenReads` | src/dispatch_server.rs:536-542 | A token reads back as the offset and size it was written from |
| `DispatchPages.AnyPageIsARun` | src/dispatch_server.rs:531-535 | No offset or size makes a range that runs backwards |
| `DispatchPages.MalformedWhen` | src/dispatch_server.rs:539-542 | A token is refused if and only if it is not two 64-bit numbers around its first colon |
| `Rainbow.RainbowHighlight` | ui-assets/repl-syntax.js:72-183 | The character loop with its flush writes the rendering the lemmas are about |
| `RainbowPlaces.ShowsTheText` | ui-assets/repl-syntax.js:72-183 | The HTML shows exactly the text, and one blank after a newline at its end |
| `RainbowPlaces.ColoursByPlace` | ui-assets/repl-syntax.js:72-183 | The pieces are the text in order, and each is one whole string, one whole comment, one bracket in code in the class of how many are open there, one head of a list in its class, one whole plist key, or text that is none of these; what is what is said by looking back over the text |
| `RainbowPlaces.PartnersMatch` | ui-assets/repl-syntax.js:148-168 | An opener and the closer that takes it off the stack of open brackets are written in the same depth class |
| `RainbowPlaces.PopsOnce` | ui-assets/repl-syntax.js:156-168 | No opener is popped by two closers |
| `RainbowPlaces.MismatchIsUnmatched` | ui-assets/repl-syntax.js:156-168 | A closer is written as a mismatch if and only if no opener is left that it pops |
| `RainbowPlaces.PieceAt` | ui-assets/repl-syntax.js:72-183 | Every place of the text is in one of the pieces, so what is coloured is exactly that |
| `Rainbow.Highlighter.Flush` | ui-assets/repl-syntax.js:89-120 | Writes the buffer with its head and its keys classified |
| `Html.EscapedText` | ui-assets/html.js:4-9 | Escaped text shows as itself |
| `ReplHistory.StepRefines` | ui-assets/repl-keys.js:35-41 | A step is one step in an array of editable lines: it leaves the text at its line and shows the line it goes to, and at either end does nothing |
| `ReplHistory.ShowsLastLeft` | ui-assets/repl-keys.js:5-9 | Over any walk, coming to a place shows the text last left there, or the command itself |
| `ReplHistory.PushKeeps` | ui-assets/repl-keys.js:25-31 | A push keeps the newest commands in order and no command twice running, and adds the command unless it is blank, too long or the newest once more |
| `ReplHistory.History.Step` | ui-assets/repl-keys.js:35-41 | The method is that step |
| `ReplHistory.History.Push` | ui-assets/repl-keys.js:25-31 | Records or leaves out a command, and ends the walk |
| `EmacsKeys.YankRestores` | ui-assets/repl-keys.js:128-136 | Any run of kills in any mix, each taking some text and the first starting afresh, followed by a yank restores the text |
| `EmacsKeys.KillRebuilds` | ui-assets/repl-keys.js:128-136 | After every kill that takes something the kill ring put in at the caret rebuilds the text the chain began with |
| `EmacsKeys.EmptyKillBreaks` | ui-assets/repl-keys.js:129-131 | A kill that takes nothing keeps the ring, and the next kill starts afresh |
| `EmacsKeys.SameLengthJoins` | ui-assets/repl-keys.js:103-108 | When the text or the caret is changed between two kills, the second, whichever it is, starts afresh if and only if the caret or the length differs: a change that keeps both is not noticed |
| `EmacsKeys.JoinedAcrossEdit` | ui-assets/repl-keys.js:103-108 | A text replaced by another as long, whose kill joins what was killed before |
| `EmacsKeys.ChainHasText` | ui-assets/repl-keys.js:124-136 | Whatever command runs, a chain that goes on has killed text to join |
| `EmacsKeys.KillJoins` | ui-assets/repl-keys.js:128-136 | The ring after a kill that takes something: what it took alone, or before or after what was there |
| `EmacsKeys.KillLineTakes` | ui-assets/repl-keys.js:168-173 | Kill-line takes something unless the text ends at the caret: the rest of the line, and its newline if and only if that rest is spaces and tabs |
| `EmacsKeys.StaysInText` | ui-assets/repl-keys.js:124-178 | Every edit is inside the text and leaves the caret inside the new one |
| `EmacsKeys.CharMotions` | ui-assets/repl-keys.js:142-157 | The motions by a character and to the ends of the text move the caret as named, and change nothing else |
| `EmacsKeys.LineMotions` | ui-assets/repl-keys.js:138-141 | The motions to the ends of a line, but for the start of a text that begins with a newline |
| `EmacsKeys.MovesUp` | ui-assets/repl-keys.js:146-149 | Up a line as a command: the same column or the end of a shorter line |
| `EmacsKeys.MovesDown` | ui-assets/repl-keys.js:150-153 | Down a line as a command |
| `EmacsKeys.WordMotions` | ui-assets/repl-keys.js:158-161 | The word motions pass what is no word and then one whole word, either way |
| `EmacsKeys.KillsForward` | ui-assets/repl-keys.js:164-165 | Kill-word takes just what forward-word moves over |
| `EmacsKeys.KillsBackward` | ui-assets/repl-keys.js:166-167 | Backward-kill-word takes just what backward-word moves over |
| `EmacsKeys.DeletesChar` | ui-assets/repl-keys.js:162-163 | Delete-char takes the character after the caret, if there is one, and keeps it nowhere |
| `EmacsKeys.LineStartIsRight` | ui-assets/repl-keys.js:82-82 | The start of a line is right if and only if the caret is not at the very start of a text that begins with a newline |
| `EmacsKeys.PreviousLineIsRight` | ui-assets/repl-keys.js:146-149 | Up keeps the column, clamped to the line; under an empty first line the caret stays |
| `EmacsKeys.NextLineIsRight` | ui-assets/repl-keys.js:150-153 | Down likewise; at the very start of a text that begins with a newline the caret stays |
| `EmacsKeys.ForwardWordSpans` | ui-assets/repl-keys.js:90-94 | Forward passes what is no word and then one whole word |
| `EmacsKeys.BackwardWordUndoes` | ui-assets/repl-keys.js:95-99 | Backward from the end of a word is its start |
| `EmacsKeys.WordEnd` | ui-assets/repl-keys.js:90-94 | The two loops compute that place |
| `EmacsKeys.Keys.Run` | ui-assets/repl-keys.js:124-178 | The method: the outcome and the kill ring of each command |
| `SampleRing.NeverMisread` | ui-assets/metrics-store.js:130-134 | A second reads as its own last value or as nothing |
| `SampleRing.NewestReadAsRecorded` | ui-assets/metrics-store.js:82-90 | When each sample is less than 900 s behind the newest before it, the newest 900 seconds and later ones read exactly as an unbounded record |
| `SampleRing.LateSampleHides` | ui-assets/metrics-store.js:82-90 | A later sample in its slot hides a second; for a newer second that sample is one that breaks the hypothesis |
| `SampleRing.SharedSlot` | ui-assets/metrics-store.js:85-85 | Two seconds, negative ones too, share a slot if and only if they are whole rings apart |
| `SampleRing.SharedColumns` | ui-assets/metrics-store.js:122-136 | Reads of two non-empty streams at one anchor and window have the same consecutive columns, ending at the anchor |
| `SampleRing.OwnColumns` | ui-assets/metrics-store.js:122-128 | Without an anchor a stream's columns end at its own newest second, and there are none without a sample |
| `SampleRing.ColumnsAreOwn` | ui-assets/metrics-store.js:130-134 | With an anchor or without, a column shows its own second's last value or nothing |
| `SampleRing.ChartShowsRecord` | ui-assets/metrics-store.js:122-136 | A chart anchored at the newest second or later shows the record, column by column |
| `SampleRing.BackfillIsLive` | ui-assets/metrics-store.js:159-169 | A backfill reads as if it had come live at every second if and only if no sample it leaves out is still in its slot |
| `SampleRing.BackfillLosesOldest` | ui-assets/metrics-store.js:159-169 | An increasing history of 901 samples whose backfill does not read as it would have live: second 0 is left out |
| `SampleRing.BackfillShowsNewest` | ui-assets/metrics-store.js:159-169 | For increasing seconds the two agree on the newest 900 seconds and later ones |
| `SampleRing.Buffer.Place` | ui-assets/metrics-store.js:82-90 | Sets one slot and the newest second, and drops a sample without a time |
| `SampleRing.Buffer.ReadSeries` | ui-assets/metrics-store.js:122-136 | The loop reads those columns |
| `SampleRing.Buffer.Backfill` | ui-assets/metrics-store.js:159-169 | Clears the ring and fills it from the end of the history |
| `SampleRing.LatestSecond` | ui-assets/metrics-store.js:245-252 | The newest second any stream holds, or none |
| `Zone.FromWallInverts` | ui-assets/zone.js:143-152 | For any zone with at most one change within a day: the earliest instant that reads the wall time if there is one, and otherwise an instant that reads later by exactly the gap |
| `Zone.DayStartIsAfter` | ui-assets/zone.js:162-165 | The start of the day is after the instant asked about if and only if a gap skips midnight and the instant lies between the change and where midnight is moved to |
| `Zone.DayStartIsNotAfter` | ui-assets/zone.js:162-165 | Never when the zone shows that midnight, or the gap begins there |
| `Zone.GapOverMidnight` | ui-assets/zone.js:162-165 | A zone and an instant whose day starts after it |
| `Placement.CascadeSlot` | ui-assets/panel-geometry.js:13-18 | The unbounded loop ends within one more slot than there are cards, at the first slot no card holds, whatever the step |
| `Placement.Pigeonhole` | ui-assets/panel-geometry.js:13-18 | As many slots as are held, so many cards there are |
| `Placement.CascadeColumn` | ui-assets/panel-geometry.js:30-41 | Exactly the offsets, placed and shown, that cards in the column claim |
| `Placement.SpawnInColumn` | ui-assets/side-panel.js:876-882 | A card gets the first slot of the cascade that no card sits on less than half a step away, as placed or as shown; docked cards, bottom ones and those dragged out of the column do not count |
| `Placement.WalkRow` | ui-assets/side-panel.js:920-933 | The re-check loop ends at the leftmost clear place from the inset on |
| `Placement.BottomLeftSpawn` | ui-assets/side-panel.js:907-936 | A card is refused if and only if every place from 40 on in the row is less than 8 from another open bottom-left card that is not docked; otherwise it gets the leftmost that is not |
| `Placement.TakenSpans` | ui-assets/side-panel.js:907-917 | Exactly the spans of those cards |
| `Throttle.RunsSpread` | ui-assets/app.js:544-575 | In every timed run backfills are 800 ms or more apart; two refreshes are less than 300 ms apart if and only if some message of the run finds the throttle idle less than 300 ms after a refresh, and then they are neighbours, the earlier the end of a burst |
| `Throttle.CrowdsWhen` | ui-assets/app.js:560-575 | A callback makes a refresh less than 300 ms after an earlier one if and only if it is a message that finds the throttle idle less than 300 ms after the last |
| `Throttle.RunsServe` | ui-assets/app.js:525-575 | Each message has a refresh within the burst, and that a backfill 800 ms or more after it and at most two such times, never starved |
| `Throttle.RunsAreCaused` | ui-assets/app.js:525-575 | Nothing is done for nothing: each refresh has a message within a burst before it, and each backfill a refresh 800 ms or more before it and at most two such times |
| `Throttle.NeighboursMeet` | ui-assets/app.js:560-575 | A run with two refreshes 1 ms apart: a refresh that ends a burst does not arm the throttle again |
| `Throttle.InvKept` | ui-assets/app.js:510-575 | What each callback keeps |
| `Throttle.Page.MessageArrives` | ui-assets/app.js:562-568 | The callback is that step |
| `Throttle.Page.BackfillFires` | ui-assets/app.js:544-553 | The timer callback is that step |

## Left out

- Floating-point rounding, and how JavaScript writes a number: a number of a formula is its text, so `renderNumber` is not modelled beyond that.
- FormulaSign.WrappersTellDirection: says nothing of `*` and `/`, whose direction the wrappers do not track.
- TidyLayout.ForestApart: says nothing of lanes nested in lanes, where the lane depth does not count the inner lanes and boxes can overlap.
- FormulaShown.ShownIsPrint: for trees whose operators and numbers hold no markup, as those of the grammar are; the page writes these as they are.
- PasteReader.SourceReads: for modes without a closing bracket; the modes there are are words.
- StartProtocol.RunGrows: takes it that binding a port other than 0 binds that port.
- StartProtocol.InvKept: a start cancelled while it waits for the lock is no event, as it has changed nothing; the loopback slot and the physics task are not part of the state.
- RegistrationListener.NoneMissed: takes one make-microgrid at a time, as the interpreter runs them.
- The masked merge that an update makes of a dispatch's data is a function given to `UpdateWith`; what neither the end nor the pausing of a dispatch depends on is one text.
- Filtering and sorting of dispatch lists, and the merge of a recurrence rule: they would add easy members.
- gRPC, HTTP and WebSocket transport, the Lisp interpreter, the physics, and everything painted: not part of this model.
- Parsing of dates and zone names, and formatters: `Zone` begins at the offset of an instant.
- Throttle.RunsServe: the debounce of the formula panel is not modelled; it is a timer that is cleared and set again.
- `resolveOverlaps`, the hint and the completion of the REPL, and the key table that maps a key press to a command.
