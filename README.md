# State-and-transition model editor: a verified model of its core

The editor loads a state-and-transition model (STM) of an ecosystem. The
document holds states, each with a VAST class and condition bounds, and
transitions between states, each with plausibility, likelihood, a condition
delta, notes and a causal chain of drivers. The editor draws the document
as a graph and lets the user edit it.

This project models, in Dafny, the logic behind that screen:

- **Swimlane layout.** `NodeLayout`, `NodeLayoutProperties` and `StateNodes`.
  - States are grouped into one lane per VAST class, ranked Class I..VI.
  - Lanes are placed across a 1400-wide viewport with 100 margins.
  - Reference, Removed and Cropping states are pinned to fixed rows.
  - The other states of a lane are stacked by how connected they are.
  - Each state becomes one canvas node.
- **Edge routing.** `Handles`, `Edges` and `EdgeProperties`.
  - Only plausible transitions are drawn.
  - Self-transitions get a fixed loop.
  - The two transitions of a two-transition pair are bent apart.
  - Each edge leaves from the handle facing its target.
- **Editor screen.** `Filters` and `Editor`.
  - The view filters and how a refresh composes them.
  - The edge-creation mode driven by node clicks.
  - Creating a transition by drawing an edge.
  - Saving a node, which renames or adds a state.
  - The flip applied to a drawn connection.
  - Rewriting a transition's endpoints when its edge is moved.
- **Document update.** `DataLoader`.
- **Causal-chain editing** in the transition dialog. `CausalChain`.
- **Colour configuration.** `ColorTypes`, `ColorUtils`, `ConfigReducers` and `SchemeEditor`.
  - The default schemes.
  - Colour lookup and the preview.
  - Scheme validation.
  - The configuration actions.
  - The scheme editor's range list and save.
- **State details form.** `StateForm`: per-field validation, input coercion and submit.

`Model` holds the document and graph entities. `Common` holds the
JavaScript behaviour the code relies on:
- `||` defaults;
- `trim`;
- `parseInt`;
- `String.replace` of the first match;
- stable `sort`;
- `filter`;
- `new Set` order;
- grouping.

Numbers are Dafny `real`s. A JavaScript number that may be NaN is a `JsNum`
(`Finite(r)` or `NaN`), and every comparison with NaN is false.

The loops of the source are methods with loop invariants:
- the layout passes;
- the two passes of `transitionsToEdges`;
- `interpolateColor`, `generateColorPreview` and `validateColorScheme`;
- the submit loop of the form;
- `handleAddDriver`;
- the driver grouping.

Each loop method is proved equal to a specification function. The properties
are proved about those functions. The editor screen is a class whose fields
are the React state of the screen, and its handlers are methods.

Where the code and its natural description differ, the model follows the
code:
- A transition and its reverse are both treated as the "first direction" of
  their pair, so both get centred handles and curvature 0.2. Offset handles
  with curvature 0.4 go only to a repeated direction. This is recorded under
  Findings, together with the intended behaviour.
- A missing or NaN transition delta counts as neutral (0) in the delta
  filter. It is not excluded.
- The edge router always drops implausible transitions, whatever the
  plausible-only toggle says.

One deviation goes the other way: the editor gives a new transition or a new
state the id `NextId`, which is 1 for an empty list, where the code computes
`Math.max()` + 1 = -Infinity. This is recorded under Findings and under Left
out.

## Model

| member | source | states |
|---|---|---|
| NodeLayout.VastClassNumber | src/utils/stateTransitionUtils.tsx:62-70 | "Class I".."Class VI" rank 1..6 and every other class ranks 0 |
| NodeLayout.ComputeWeights | src/utils/stateTransitionUtils.tsx:96-123 | the two weight passes build the weight map `Weights` (an entry per state, then the transitions added in) |
| NodeLayout.FindFirst | src/utils/stateTransitionUtils.tsx:156-172 | `findIndex`: the index of the first state of the lane matching a pin, or none when no state matches |
| NodeLayout.Unpinned | src/utils/stateTransitionUtils.tsx:180 | the states left to stack are never more than the lane's |
| NodeLayoutProperties.UnpinnedIn | src/utils/stateTransitionUtils.tsx:180 | a state is left to stack exactly when it is in the lane and no lane so far pinned its id |
| NodeLayout.PlaceLanesStep | src/utils/stateTransitionUtils.tsx:141-191 | placing k+1 lanes is placing k lanes and then lane k at its x |
| NodeLayout.PinInto | src/utils/stateTransitionUtils.tsx:155-177 | pins the first state of the lane matching one pin at the pin's row and marks it special |
| NodeLayout.StackInto | src/utils/stateTransitionUtils.tsx:182-190 | stacks the remaining states of a lane, one row of 120 each from y = 150 |
| NodeLayout.PlaceClass | src/utils/stateTransitionUtils.tsx:155-190 | one lane: the Reference, Removed and Cropping pins, then the stack |
| NodeLayout.LaneStates | src/utils/stateTransitionUtils.tsx:143-150 | the lane is the class's states in document order, stably sorted by descending total weight |
| NodeLayout.PlaceNextLane | src/utils/stateTransitionUtils.tsx:141-191 | one iteration of the per-class loop extends the placement of the first lanes by the next lane |
| NodeLayout.PlaceAllLanes | src/utils/stateTransitionUtils.tsx:141-191 | the per-class loop gives the placement of all the lanes |
| NodeLayout.OptimizeNodeLayout | src/utils/stateTransitionUtils.tsx:73-194 | the imperative layout computes exactly the positions `Layout` specifies; the properties below are proved about `Layout` |
| NodeLayoutProperties.WeightsCount | src/utils/stateTransitionUtils.tsx:96-123 | a state's weight counts the plausible non-self transitions leaving it (outbound) and entering it (inbound); total is their sum; every state has an entry |
| NodeLayoutProperties.WeightsSum | src/utils/stateTransitionUtils.tsx:105-123 | over the state ids, the totals add up to twice the number of counted transitions |
| NodeLayoutProperties.DegreeSumTwice | src/utils/stateTransitionUtils.tsx:105-123 | each counted transition adds exactly 2 to the degree sum over ids containing its endpoints |
| NodeLayoutProperties.SortedClassesOrder | src/utils/stateTransitionUtils.tsx:79-90 | the lanes are the states' classes, each once, in ascending rank; classes of equal rank keep their first-appearance order |
| NodeLayoutProperties.ClassInLanes | src/utils/stateTransitionUtils.tsx:79-90 | every state's class has a lane |
| NodeLayoutProperties.LaneOrder | src/utils/stateTransitionUtils.tsx:143-150 | a lane holds exactly its class's states, in descending weight, with ties in document order |
| NodeLayoutProperties.PinAllFacts | src/utils/stateTransitionUtils.tsx:155-177 | pinning adds exactly the ids of the first Reference/Removed/Cropping states of the lane and changes no other position |
| NodeLayoutProperties.PlaceLaneFacts | src/utils/stateTransitionUtils.tsx:141-191 | placing a lane adds exactly the lane's ids and changes no other position |
| NodeLayoutProperties.PlaceLanesKeys | src/utils/stateTransitionUtils.tsx:141-191 | after the first lanes, exactly the states of those classes are placed |
| NodeLayoutProperties.LayoutCovers | src/utils/stateTransitionUtils.tsx:73-194 | every state gets a position and nothing else does; no states give the empty map |
| NodeLayoutProperties.LaneXRange | src/utils/stateTransitionUtils.tsx:126-153 | lane i of n sits at 100 + i·1200/n, so 100 ≤ x < 1300 |
| NodeLayoutProperties.LayoutXRange | src/utils/stateTransitionUtils.tsx:126-153 | every computed position has 100 ≤ x < 1300 |
| NodeLayoutProperties.PlaceLaneLocal | src/utils/stateTransitionUtils.tsx:141-191 | a lane whose ids nothing placed so far mentions gets the positions it gets on its own |
| NodeLayoutProperties.LayoutAt | src/utils/stateTransitionUtils.tsx:141-191 | with unique ids, a state's position is the one its own lane gives it at that lane's x: lanes do not interfere |
| NodeLayoutProperties.LaneSameX | src/utils/stateTransitionUtils.tsx:153-190 | every state of a lane, pinned or stacked, shares the lane's x |
| NodeLayoutProperties.PinNamesDiffer | src/utils/stateTransitionUtils.tsx:156-172 | neither "Reference" nor "Removed" contains "Cropping", so those pins never compete for the Cropping row |
| NodeLayoutProperties.PinFirstOther | src/utils/stateTransitionUtils.tsx:155-177 | a pin leaves the position of a state that does not match it unchanged |
| NodeLayoutProperties.LanePin | src/utils/stateTransitionUtils.tsx:155-177 | the first Reference, Removed and Cropping states of a lane land at y = 50, 600 and 500 |
| NodeLayoutProperties.LaneStack | src/utils/stateTransitionUtils.tsx:179-190 | the k-th unpinned state of a lane lands at y = 150 + 120k |
| NodeLayoutProperties.UnpinnedSorted | src/utils/stateTransitionUtils.tsx:145-190 | removing the pinned states keeps the lane's descending-weight order |
| NodeLayoutProperties.LayoutPosition | src/utils/stateTransitionUtils.tsx:73-194 | where each state lands: its lane's x; its pin's row if it is the lane's first match; otherwise row 150 + 120k in weight order |
| StateNodes.ConditionOf | src/utils/stateTransitionUtils.tsx:197-202 | "No condition data" exactly when either bound is the -9999 sentinel, otherwise the range of the bounds |
| StateNodes.StatesToNodes | src/utils/stateTransitionUtils.tsx:215-241 | one node per state, in state order, whose id reads back as that state's id |
| StateNodes.StatesToNodesContents | src/utils/stateTransitionUtils.tsx:215-241 | each node carries its state's name, number, class and condition and sits at its layout position; the (0,0) fallback is never reached |
| StateNodes.StatesToNodesDistinct | src/utils/stateTransitionUtils.tsx:215-241 | states with distinct ids give nodes with distinct ids |
| Model.StateIdOfNodeId | src/App.tsx:391-392 | `parseInt(id.replace("state-", ""))` on the id `state-<n>` gives back n, negative ids included |
| Model.NodeIdInjective | src/utils/stateTransitionUtils.tsx:230 | distinct state ids give distinct node ids |
| Handles.AngleSide | src/utils/stateTransitionUtils.tsx:251-297 | the side facing the target, in both directions for each side: right for -dx ≤ dy < dx, bottom, left and top likewise; (0,0) is right |
| Handles.IncomingOpposite | src/utils/stateTransitionUtils.tsx:258-297 | the target side from the incoming angle is always opposite the source side |
| Handles.CloseSide | src/utils/stateTransitionUtils.tsx:299-321 | for nodes closer than 100 the sides are horizontal exactly when \|dx\| ≥ \|dy\| (ties go horizontal); right exactly when also dx ≥ 0, bottom exactly when vertical and dy ≥ 0 |
| Handles.OptimalHandles | src/utils/stateTransitionUtils.tsx:245-324 | centred source and target handles on opposite sides |
| Handles.OptimalFollowsAngle | src/utils/stateTransitionUtils.tsx:245-324 | off the exact diagonals, the close-node override agrees with the angle classification |
| Handles.CloseDiagonalDiffers | src/utils/stateTransitionUtils.tsx:245-324 | on a diagonal the close and distant rules disagree: (10,10) connects right, (100,100) bottom |
| Handles.BidirectionalHandles | src/utils/stateTransitionUtils.tsx:327-395 | opposite sides; horizontal exactly when \|dx\| > \|dy\|; the source faces the target (right iff dx > 0 when horizontal, bottom iff dy > 0 otherwise); centred exactly for the first direction; the second shifts the source toward top/left and the target toward bottom/right |
| Handles.ReverseSecondSeparate | src/utils/stateTransitionUtils.tsx:327-395 | a reverse edge treated as second meets each node on the same side as the first edge but at a different point |
| Handles.RepeatSameSides | src/utils/stateTransitionUtils.tsx:327-395 | a repeated direction leaves from the same sides, shifted off centre |
| Edges.Shown | src/utils/stateTransitionUtils.tsx:400-402 | the drawn transitions are exactly the plausible ones, without self-transitions unless included |
| Edges.PairKeyInjective | src/utils/stateTransitionUtils.tsx:412 | the text key `${a}-${b}` identifies the pair, negative ids included |
| Edges.PairKeyFirst | src/utils/stateTransitionUtils.tsx:412 | the key reads back its first id |
| Edges.PairKeySecond | src/utils/stateTransitionUtils.tsx:412 | after the first id and the dash, the key spells the second id |
| Edges.FindNode | src/utils/stateTransitionUtils.tsx:444-445 | `nodes.find`: a node with the id, or none when no node has it |
| Edges.EdgeFor | src/utils/stateTransitionUtils.tsx:495-513 | an edge has the id `transition-<id>`, its endpoint node ids and the transition's id in its data |
| Edges.EdgesOf | src/utils/stateTransitionUtils.tsx:398-515 | one edge per drawn transition |
| Edges.TransitionsToEdges | src/utils/stateTransitionUtils.tsx:398-515 | the two passes give exactly the edges `EdgesOf` specifies, in order |
| Edges.EdgeOfTransition | src/utils/stateTransitionUtils.tsx:417-514 | one mapping step produces the edge of the j-th transition and records its direction as seen |
| Edges.CountPairs | src/utils/stateTransitionUtils.tsx:405-415 | the counting pass maps the key of every connected pair to the number of transitions between the pair, in either direction |
| Edges.CountNext | src/utils/stateTransitionUtils.tsx:409-414 | one counting step keeps the counts exact for the transitions seen |
| Edges.RouteEdge | src/utils/stateTransitionUtils.tsx:443-513 | the routing of a non-loop transition gives the edge `EdgeFor` specifies |
| Edges.CountStep | src/utils/stateTransitionUtils.tsx:409-414 | incrementing the pair's key keeps the counts equal to the pair counts of the prefix |
| Edges.SeenStep | src/utils/stateTransitionUtils.tsx:459-464 | inserting the direction key keeps the seen set equal to the directions of the prefix |
| EdgeProperties.EdgeAtMatches | src/utils/stateTransitionUtils.tsx:495-513 | the edge of a transition carries its id, endpoints, delta and other data |
| EdgeProperties.EdgesMatchTransitions | src/utils/stateTransitionUtils.tsx:398-515 | every edge comes from a drawn transition and every drawn transition has an edge |
| EdgeProperties.EdgeOfShown | src/utils/stateTransitionUtils.tsx:398-515 | returns the edge of a given drawn transition |
| EdgeProperties.NoLoopsUnlessIncluded | src/utils/stateTransitionUtils.tsx:400-402 | without self-transitions, no edge starts and ends at one node |
| EdgeProperties.LoopRoute | src/utils/stateTransitionUtils.tsx:420-441 | a self-transition gets right-centre to top-centre, curvature 0.7, is a loop and is not bidirectional |
| EdgeProperties.MissingNodeRoute | src/utils/stateTransitionUtils.tsx:444-466 | with a node missing: right-centre to left-centre, curvature 0.25, and the count-based bidirectional flag kept |
| EdgeProperties.SingleRoute | src/utils/stateTransitionUtils.tsx:466-493 | outside a pair of exactly two: the facing sides, centred, curvature 0.25, not bidirectional |
| EdgeProperties.PairRoute | src/utils/stateTransitionUtils.tsx:453-493 | in a pair of exactly two: the pair handles, centred with 0.2 for a first direction, shifted with 0.4 otherwise, bidirectional |
| EdgeProperties.RoutingOptimal | src/utils/stateTransitionUtils.tsx:484-492 | between found nodes, a non-pair transition takes the optimal handles and 0.25 |
| EdgeProperties.RoutingPair | src/utils/stateTransitionUtils.tsx:466-483 | between found nodes, a pair transition takes the pair handles and 0.2 or 0.4 |
| EdgeProperties.EdgeForRouted | src/utils/stateTransitionUtils.tsx:495-513 | the edge of a non-loop transition carries the routed handles and curvature |
| EdgeProperties.RepeatNotFirst | src/utils/stateTransitionUtils.tsx:459-464 | a second transition in the same direction is not first |
| EdgeProperties.OppositeIsFirst | src/utils/stateTransitionUtils.tsx:459-464 | in a pair of two, the reverse of the other transition is always first |
| EdgeProperties.ReversePairBothFirst | src/utils/stateTransitionUtils.tsx:459-464 | as written, A→B and B→A are both first: both curve by 0.2 and the second enters exactly where the first leaves |
| EdgeProperties.IntendedReverseSeparate | src/utils/stateTransitionUtils.tsx:453-493 | with first-of-pair as the test, the earlier curves 0.2 and the later 0.4, and the two never share an attachment point |
| Filters.HasNotesIffNotBlank | src/App.tsx:266 | a transition has notes exactly when its notes are not blank after trimming |
| Filters.FilterTransitions | src/App.tsx:263-268 | keeps exactly the transitions passing the plausible-only and has-notes toggles |
| Filters.FilterTransitionsOrder | src/App.tsx:263-268 | the filter keeps order: it distributes over concatenation |
| Filters.FilterEdgesByDelta | src/App.tsx:251-260 | "all" returns the input; the others keep exactly the edges whose delta (0 if missing or NaN) has the sign |
| Filters.UnknownDeltaIsNeutral | src/App.tsx:254 | an edge without data or with a NaN delta is neutral and neither positive nor negative |
| Filters.SignFiltersPartition | src/App.tsx:251-260 | the positive, neutral and negative results together have as many edges as the input |
| Filters.RefreshShowsOnlyPlausible | src/App.tsx:271-277 | every refreshed edge comes from a plausible transition passing the toggles and the delta filter, even with plausible-only off |
| Filters.RefreshShowsAllPassing | src/App.tsx:271-277 | every plausible transition passing the toggles and the delta filter is drawn |
| Filters.StateNameMap | src/App.tsx:437-441 | every state id is a key and maps to the name of some state with that id |
| Filters.StateNameMapLast | src/App.tsx:437-441 | the name kept for an id is that of the last state with it |
| DataLoader.UpdateTransition | src/utils/dataLoader.tsx:55-64 | same length; every transition with the update's id is replaced and the rest stay in place; other document fields are kept |
| DataLoader.UpdateAbsent | src/utils/dataLoader.tsx:58-62 | an id no transition has changes nothing: no insertion |
| DataLoader.UpdateKeepsIds | src/utils/dataLoader.tsx:58-62 | the list of transition ids is unchanged |
| DataLoader.UpdateIdempotent | src/utils/dataLoader.tsx:55-64 | applying an update twice is applying it once |
| DataLoader.UpdateLastWins | src/utils/dataLoader.tsx:55-64 | of two updates of one transition the later wins |
| Editor.Max | src/App.tsx:394 | the largest of a non-empty id list, bounding every id |
| Editor.MaxPlusOne | src/App.tsx:394 | as written: -Infinity exactly for no ids, otherwise above every id |
| Editor.FirstIdIsNotAnId | src/App.tsx:394 | the first transition of a document without transitions gets -Infinity |
| Editor.NextId | src/App.tsx:505 | the id used: above every id, hence fresh; equal to max+1 on non-empty lists and 1 on none |
| Editor.FindState | src/App.tsx:395-396 | a state with the id, or none exactly when no state has it |
| Editor.FindTransition | src/App.tsx:305 | a transition with the id, or none exactly when no transition has it |
| Editor.FindEdge | src/App.tsx:292-293 | an edge with the id, or none exactly when no edge has it |
| Editor.NewTransition | src/App.tsx:391-413 | none exactly when an endpoint names no state; otherwise a fresh id between the parsed states with the creation defaults; the id is `NextId`, 1 on an empty document (see Left out) |
| Editor.CreatedEdge | src/App.tsx:418-429 | the drawn edge stamped with `transition-<id>` and the transition's data, ends and handles kept |
| Editor.CreatedEdgeCarriesTransition | src/App.tsx:421-429 | the stamped edge's data carries the parsed state ids, time_25 = 1, time_100 = 0, delta 0 and empty notes, and no routing data |
| Editor.NewTransitionBetweenStates | src/App.tsx:391-413 | an edge drawn between two state nodes creates a transition between those states |
| Editor.EmptyEndpointsCreateNothing | src/App.tsx:391-397 | the edge with empty endpoints from the second click creates no transition |
| Editor.SelectOnly | src/App.tsx:339-345 | exactly the clicked node is marked selected; nothing else changes |
| Editor.Deselected | src/App.tsx:361-366 | no node is marked selected; nothing else changes |
| Editor.EditedNodes | src/App.tsx:453-471 | the edited node takes the dialog's name and attributes; other nodes are unchanged |
| Editor.RenamedStates | src/App.tsx:473-479 | exactly the states with the parsed id are renamed; NaN matches none |
| Editor.EditRenamesOwnState | src/App.tsx:473-479 | editing a state's node renames exactly the states with that state's id |
| Editor.NewState | src/App.tsx:505-523 | the new state: given name and class, condition [0,1], -9999 sentinels, user-created |
| Editor.NewStateFresh | src/App.tsx:505-523 | the new state's id is fresh and its node shows the range [0,1] |
| Editor.StemLetters | src/App.tsx:241-242 | a handle name's stem contains neither 'a' nor 's' and ends in '-' |
| Editor.RenameToSource | src/App.tsx:241 | `replace("target", "source")` renames any handle to the same handle as a source |
| Editor.RenameToTarget | src/App.tsx:242 | `replace("source", "target")` renames any handle to the same handle as a target |
| Editor.Flip | src/App.tsx:235-248 | the connection's ends are swapped |
| Editor.FlipRoles | src/App.tsx:235-248 | a flipped connection has its handles in the roles its ends call for; flipping twice restores exactly the connections that did |
| Editor.RewriteEndpoints | src/App.tsx:295-316 | a moved edge's transitions take the parsed endpoints and otherwise become the first with that id; everything else is kept |
| Editor.RewriteToStates | src/App.tsx:307-314 | moving an edge onto two state nodes reconnects its transition to those states |
| Editor.OnlyOneRewriteKept | src/App.tsx:289-320 | several rewrites in one change keep just one, since each starts from the captured document |
| Editor.EditorState.constructor | src/App.tsx:171-197 | the initial screen: nothing loaded, no mode, no dialog, plausible-only on |
| Editor.EditorState.Load | src/App.tsx:205-230 | the document's states become the laid-out nodes and the edges are cleared |
| Editor.EditorState.RefreshEdges | src/App.tsx:271-277 | with a document, the edges become the refreshed edges |
| Editor.EditorState.ToggleEdgeCreationMode | src/App.tsx:617-626 | flips the mode; leaving it forgets the start node and deselects every node |
| Editor.EditorState.CreateNewEdge | src/App.tsx:388-434 | with endpoints naming states: the transition appended, the stamped edge appended, its dialog opened; otherwise no change; the id is `NextId` (see Left out) |
| Editor.EditorState.HandleNodeClick | src/App.tsx:336-385 | first click in mode records and selects the node; second leaves the mode deselecting all, creating nothing; outside it opens the node dialog |
| Editor.EditorState.HandleSaveNode | src/App.tsx:451-529 | editing relabels the node and renames its state; otherwise a node and a state with a fresh id are added, the id being `NextId` (see Left out); the dialog closes |
| Editor.EditorState.HandleEdgesChange | src/App.tsx:280-326 | the canvas takes the changed edges; the document ends with the last endpoint rewrite, if any |
| CausalChain.TotalDriversZero | src/transitions/transitionModal.tsx:149-151 | the total is 0 exactly when every part is empty |
| CausalChain.TotalDriversAppend | src/transitions/transitionModal.tsx:149-151 | the total is additive over parts |
| CausalChain.TotalDriversUpdate | src/transitions/transitionModal.tsx:149-151 | replacing one part changes the total by that part's change |
| CausalChain.DeleteDriver | src/transitions/transitionModal.tsx:175-187 | in parts with the name, the drivers become their order-preserving filter without the matching driver, so order and repeats of the others are kept; part count and other parts unchanged |
| CausalChain.DeleteDriverTotal | src/transitions/transitionModal.tsx:175-187 | deleting never adds drivers, and removes one when a part holds it |
| CausalChain.FilterShrinks | src/transitions/transitionModal.tsx:180-183 | filtering out a present driver shortens the list |
| CausalChain.FindPart | src/transitions/transitionModal.tsx:194 | `findIndex`: the first part with the name, or none |
| CausalChain.AddDriver | src/transitions/transitionModal.tsx:189-215 | the in-place add computes exactly `WithDriver` |
| CausalChain.WithDriverEffect | src/transitions/transitionModal.tsx:190-210 | the first part with the name holds the driver, a new part is appended if none had it, and the total grows by one exactly for a new driver |
| CausalChain.FindPartAppend | src/transitions/transitionModal.tsx:194-203 | an appended new part is the first with its name |
| CausalChain.FindPartUpdate | src/transitions/transitionModal.tsx:204-210 | updating the target part keeps it the first with its name |
| CausalChain.WithDriverIdempotent | src/transitions/transitionModal.tsx:204-210 | adding the same driver twice is adding it once |
| CausalChain.AddThenDelete | src/transitions/transitionModal.tsx:175-210 | deleting a just-added driver leaves what deleting it gave before |
| CausalChain.FilterAdded | src/transitions/transitionModal.tsx:204-210 | filtering out a just-added driver leaves what filtering gave before |
| CausalChain.UniqueNonEmpty | src/transitions/transitionModal.tsx:154-166 | exactly the non-empty strings, once each |
| CausalChain.UniqueNonEmptyOrder | src/transitions/transitionModal.tsx:154-166 | listed in order of first appearance |
| CausalChain.UniqueChainParts | src/transitions/transitionModal.tsx:154-158 | exactly the non-empty part names |
| CausalChain.AllDrivers | src/transitions/transitionModal.tsx:160-166 | the flattened drivers: as many as the total, and exactly the drivers of the parts |
| CausalChain.UniqueDriverGroups | src/transitions/transitionModal.tsx:160-166 | exactly the non-empty groups used by any driver |
| CausalChain.GroupDrivers | src/transitions/transitionModal.tsx:63-70 | groups in first-appearance order, each holding exactly its drivers in part order |
| CausalChain.GroupDriversPartition | src/transitions/transitionModal.tsx:63-70 | the groups together hold every driver exactly once |
| ColorTypes.DefaultConfigConsistent | src/colorConfig/types.ts:23-69 | the default active id names a default scheme, the default ids are distinct, the field is the estimate |
| ColorTypes.TiledMinsIncrease | src/colorConfig/types.ts:28-60 | in a tiling the minimums strictly increase |
| ColorTypes.TiledAscending | src/colorConfig/types.ts:28-60 | a tiling is sorted by minimum |
| ColorTypes.GreenTiles | src/colorConfig/types.ts:28-33 | the green scheme tiles [0,1] with well-formed ranges |
| ColorTypes.BlueTiles | src/colorConfig/types.ts:41-46 | the blue scheme tiles [0,1] with well-formed ranges |
| ColorTypes.DiscreteTiles | src/colorConfig/types.ts:54-60 | the discrete scheme tiles [0,1] with well-formed ranges |
| ColorTypes.DefaultRangesTile | src/colorConfig/types.ts:23-63 | every default scheme tiles [0,1] in ascending order, ranges touching |
| ColorUtils.HexValue | src/colorConfig/colorUtils.ts:75 | a hex digit of either case has a value below 16 |
| ColorUtils.PairValue | src/colorConfig/colorUtils.ts:77-79 | a digit pair reads as a byte |
| ColorUtils.HexToRgb | src/colorConfig/colorUtils.ts:74-81 | a colour exactly for six hex digits after an optional '#', with byte components; null otherwise |
| ColorUtils.ReadDigits | src/colorConfig/colorUtils.ts:75-80 | a colour exactly for six hex digits |
| ColorUtils.HexDigit | src/colorConfig/colorUtils.ts:75 | the digit written for a value reads back as it |
| ColorUtils.HexPair | src/colorConfig/colorUtils.ts:77-79 | the pair written for a byte reads back as it |
| ColorUtils.HexRoundTrip | src/colorConfig/colorUtils.ts:74-81 | reading `#rrggbb` of a colour gives the colour |
| ColorUtils.HexCaseInsensitive | src/colorConfig/colorUtils.ts:75 | the reading ignores letter case |
| ColorUtils.Containing | src/colorConfig/colorUtils.ts:12-14 | `find`: the first range with min ≤ v ≤ max, or none |
| ColorUtils.DiscreteColor | src/colorConfig/colorUtils.ts:10-15 | the first containing range's colour; grey when none contains v |
| ColorUtils.Bracket | src/colorConfig/colorUtils.ts:30-42 | the first neighbouring pair spanning v, or none |
| ColorUtils.Interpolated | src/colorConfig/colorUtils.ts:25-53 | a colour unless there are no ranges |
| ColorUtils.InterpolatedSorted | src/colorConfig/colorUtils.ts:29-52 | a colour unless there are no ranges |
| ColorUtils.InterpolateColor | src/colorConfig/colorUtils.ts:25-53 | the sort and scan give exactly `Interpolated` |
| ColorUtils.InterpolateSorted | src/colorConfig/colorUtils.ts:29-52 | the scan and clamps give exactly `InterpolatedSorted` |
| ColorUtils.FindBracket | src/colorConfig/colorUtils.ts:30-42 | the loop with early return finds exactly `Bracket` |
| ColorUtils.ColorFor | src/colorConfig/colorUtils.ts:6-20 | a colour unless a continuous scheme has no ranges |
| ColorUtils.GetColorForCondition | src/colorConfig/colorUtils.ts:6-20 | computes exactly `ColorFor` |
| ColorUtils.BelowLowestMin | src/colorConfig/colorUtils.ts:27-52 | below every minimum, the colour of a lowest-min range |
| ColorUtils.BelowFirstSorted | src/colorConfig/colorUtils.ts:45-47 | below the sorted ranges, the first range's colour |
| ColorUtils.SingleRange | src/colorConfig/colorUtils.ts:27-52 | one range: its colour at or beyond its bounds, grey strictly inside |
| ColorUtils.PositionInUnit | src/colorConfig/colorUtils.ts:36-37 | inside a bracket of positive width the blend position is in [0,1] |
| ColorUtils.ConditionValue | src/colorConfig/colorUtils.ts:86-104 | the selected field, with `||` defaults 0.5, 0 and 1, and the average of the defaulted bounds |
| ColorUtils.ConditionValueInUnit | src/colorConfig/colorUtils.ts:86-104 | fields in [0,1] give a value in [0,1] |
| ColorUtils.NoEstimateTakesLowestColor | src/colorConfig/colorUtils.ts:86-104 | a state without estimate is drawn with its continuous scheme's lowest colour |
| ColorUtils.ColorForNumber | src/colorConfig/colorUtils.ts:6-20 | a colour for any number, NaN included, unless a continuous scheme has no ranges |
| ColorUtils.GenerateColorPreview | src/colorConfig/colorUtils.ts:109-119 | steps+1 samples, the i-th at i/steps with its colour |
| ColorUtils.SampleValuesIncrease | src/colorConfig/colorUtils.ts:112-113 | sample values run from 0 to 1, strictly increasing |
| ColorUtils.ValidateColorScheme | src/colorConfig/colorUtils.ts:124-158 | the pushes give exactly the messages `SchemeErrors` specifies, in order |
| ColorUtils.OverlapErrors | src/colorConfig/colorUtils.ts:135-143 | one overlap message exactly when the sorted ranges overlap |
| ColorUtils.FindOverlap | src/colorConfig/colorUtils.ts:137-142 | the loop with `break` finds an overlap exactly when there is one |
| ColorUtils.CheckRanges | src/colorConfig/colorUtils.ts:145-155 | the per-range loop gives exactly the per-range messages |
| ColorUtils.AllRangeErrorsEmpty | src/colorConfig/colorUtils.ts:145-155 | no per-range message exactly when every colour is valid and 0 ≤ min < max ≤ 1 |
| ColorUtils.SchemeValidIff | src/colorConfig/colorUtils.ts:124-158 | a scheme passes exactly when named, non-empty, without sorted overlap, and every range valid |
| ColorUtils.NoOverlapApart | src/colorConfig/colorUtils.ts:137-142 | without overlap, sorted ranges are pairwise apart and may only touch |
| ColorUtils.TiledNoOverlap | src/colorConfig/colorUtils.ts:137-142 | touching ascending ranges do not overlap |
| ColorUtils.TiledSchemeValid | src/colorConfig/colorUtils.ts:124-158 | a named tiling with valid colours passes |
| ColorUtils.TiledUnnamedErrors | src/colorConfig/colorUtils.ts:124-158 | an unnamed tiling gets the name message alone |
| ColorUtils.DefaultSchemesValid | src/colorConfig/types.ts:23-63 | each default scheme passes validation when its colours are accepted |
| ConfigReducers.FindScheme | src/colorConfig/ColorConfigContext.tsx:90 | the first scheme with the id, or none |
| ConfigReducers.UpdateActiveScheme | src/colorConfig/ColorConfigContext.tsx:44-49 | only the active id changes |
| ConfigReducers.UpdateConditionField | src/colorConfig/ColorConfigContext.tsx:51-56 | only the condition field changes |
| ConfigReducers.AddScheme | src/colorConfig/ColorConfigContext.tsx:58-63 | appends the scheme, without id check; the rest is kept |
| ConfigReducers.UpdateScheme | src/colorConfig/ColorConfigContext.tsx:65-72 | replaces every scheme with the id in place; the others are kept |
| ConfigReducers.DeleteScheme | src/colorConfig/ColorConfigContext.tsx:74-87 | the schemes become their order-preserving filter by id, so the survivors keep their order; the active id moves off a deleted scheme to the first survivor or the default id |
| ConfigReducers.GetActiveScheme | src/colorConfig/ColorConfigContext.tsx:89-91 | a scheme with the active id, none exactly when no scheme has it |
| ConfigReducers.ResetToDefault | src/colorConfig/ColorConfigContext.tsx:93-95 | the default schemes and field, with the green scheme active |
| ConfigReducers.SelectThenGet | src/colorConfig/ColorConfigContext.tsx:44-49 | selecting a scheme makes it the active scheme |
| ConfigReducers.AddKeepsActive | src/colorConfig/ColorConfigContext.tsx:58-63 | adding never changes an existing active scheme |
| ConfigReducers.UpdateActiveSchemeSeen | src/colorConfig/ColorConfigContext.tsx:65-72 | updating the active scheme under its id makes the update active |
| ConfigReducers.UpdateKeepsIds | src/colorConfig/ColorConfigContext.tsx:65-72 | an id-keeping update keeps the id list |
| ConfigReducers.UpdateAbsentId | src/colorConfig/ColorConfigContext.tsx:65-72 | an update under an absent id changes nothing |
| ConfigReducers.DeleteRemovesAll | src/colorConfig/ColorConfigContext.tsx:74-87 | no scheme keeps the id, and it stays active only if it is the default id |
| ConfigReducers.DeleteOtherKeepsActive | src/colorConfig/ColorConfigContext.tsx:74-87 | deleting another scheme keeps the active scheme |
| ConfigReducers.DeleteActiveMovesToFirst | src/colorConfig/ColorConfigContext.tsx:78-83 | deleting the active scheme activates the first remaining one, or the default id when none remains |
| ConfigReducers.ResetForgets | src/colorConfig/ColorConfigContext.tsx:93-95 | reset gives the default whatever came before |
| SchemeEditor.AddRange | src/colorConfig/ColorConfigModal.tsx:254-264 | appends {0, 1, '#000000'}, leaving the others |
| SchemeEditor.UpdateRange | src/colorConfig/ColorConfigModal.tsx:266-273 | edits only the indexed range's field; same length |
| SchemeEditor.MinEdit | src/colorConfig/ColorConfigModal.tsx:337 | the min input stores the parsed number, or 0 for NaN |
| SchemeEditor.MaxEdit | src/colorConfig/ColorConfigModal.tsx:346 | the max input never stores 0: NaN and 0 become 1 |
| SchemeEditor.RemoveRange | src/colorConfig/ColorConfigModal.tsx:275-282 | with two or more ranges and a valid index, the ranges before and after the index, in order; otherwise unchanged; never empties the list |
| SchemeEditor.AddThenRemove | src/colorConfig/ColorConfigModal.tsx:254-282 | removing the added range restores the scheme, unless it was the only one |
| SchemeEditor.UpdateRangeLastWins | src/colorConfig/ColorConfigModal.tsx:266-273 | a second edit of the same field overrides the first |
| SchemeEditor.ColorEditKeepsBounds | src/colorConfig/ColorConfigModal.tsx:266-273 | colour edits keep all bounds |
| SchemeEditor.HandleSave | src/colorConfig/ColorConfigModal.tsx:284-288 | hands on the scheme exactly when validation reports nothing |
| SchemeEditor.SavedSchemeValid | src/colorConfig/ColorConfigModal.tsx:284-288 | a handed-on scheme is named, non-empty, well-formed, valid-coloured and overlap-free |
| SchemeEditor.CreateNew | src/colorConfig/ColorConfigModal.tsx:64-75 | opens the editor on the continuous red/green template in creation mode |
| SchemeEditor.OnSave | src/colorConfig/ColorConfigModal.tsx:92-100 | a new scheme is added under `scheme-<time>`, an edit updates the original id; the editor closes |
| SchemeEditor.OnCancel | src/colorConfig/ColorConfigModal.tsx:101-104 | closes the editor |
| SchemeEditor.TemplateNeedsName | src/colorConfig/ColorConfigModal.tsx:64-75 | the template is refused for its missing name alone |
| SchemeEditor.NamedTemplateValid | src/colorConfig/ColorConfigModal.tsx:64-75 | named, the template saves |
| SchemeEditor.SaveEditedActive | src/colorConfig/ColorConfigModal.tsx:92-100 | saving an edit of the active scheme makes the saved version active |
| SchemeEditor.SaveNewAppends | src/colorConfig/ColorConfigModal.tsx:92-100 | saving a new scheme appends it and keeps the active scheme |
| StateForm.ValidateField | src/components/StateDetailsSidebar.tsx:68-89 | condition fields: NaN message exactly for NaN, no message exactly in [0,1]; name: message exactly when falsy or blank; others: none |
| StateForm.NameFacts | src/components/StateDetailsSidebar.tsx:93 | exactly the three condition fields mention "condition" or "eks" |
| StateForm.Coerced | src/components/StateDetailsSidebar.tsx:93 | `parseFloat(value) \|\| 0` is never NaN |
| StateForm.HandleChange | src/components/StateDetailsSidebar.tsx:91-106 | stores the typed or coerced value and sets only that field's message |
| StateForm.KeyMessage | src/components/StateDetailsSidebar.tsx:68-89 | a key's message is non-empty exactly when its value is invalid |
| StateForm.FieldErrors | src/components/StateDetailsSidebar.tsx:111-121 | exactly the keys with a non-empty message, holding it |
| StateForm.ValidateKeys | src/components/StateDetailsSidebar.tsx:111-121 | the `forEach` builds exactly `FieldErrors` |
| StateForm.HandleSubmit | src/components/StateDetailsSidebar.tsx:108-134 | records the messages and saves exactly when none was recorded |
| StateForm.SubmitSavesIff | src/components/StateDetailsSidebar.tsx:108-134 | saved exactly when named, all three in [0,1] and lower ≤ upper |
| StateForm.SubmitErrorsMessages | src/components/StateDetailsSidebar.tsx:111-126 | no message is empty; lower > upper is reported under the lower bound |
| StateForm.BlankFormNeedsName | src/components/StateDetailsSidebar.tsx:39-46 | the blank form is refused for the name alone |
| StateForm.OnlyNameMissing | src/components/StateDetailsSidebar.tsx:108-134 | details whose only fault is the name get the name message alone |
| StateForm.ChangeStoresZero | src/components/StateDetailsSidebar.tsx:93-105 | an unparsable condition value is stored as 0, which is valid |

## Left out

- Document I/O: `loadBMRGData` and `saveBMRGData` use fetch and alerts. The loaded document is a parameter of `Load`.
- The localStorage persistence of the colour configuration. Only the actions are modelled.
- Authentication, routing and the rendering components: edge paths, node markup, swimlane backgrounds and the plain dialogs.
- Handles.AngleSide: the `atan2` degrees are replaced by exact comparisons of dx and dy.
  - The `sqrt` distance test becomes dx² + dy² < 10000.
  - On the exact diagonals the source's outcome depends on float rounding, so no property is claimed there beyond the classification itself.
- StateNodes.ConditionOf: the `toFixed(2)` text is kept as the pair of bounds (`ConditionRange`), not as a string.
- ColorUtils.Interpolated: a blend is the pair of colours and its position. The rounded `rgb(r, g, b)` text is not computed.
- The browser's CSS colour parser (`isValidColor`) is a predicate parameter. So is `parseFloat`, which is a parameter from text to a number or NaN.
- The clock and the window centre are parameters: the new scheme's `Date.now()` id, and the new node's id and position.
- ReactFlow's `addEdge` and `applyEdgeChanges` are not modelled. `HandleEdgesChange` receives the edges they produce.
- Editor.EditorState.CreateNewEdge: the source mutates the passed edge object in place. The model returns a stamped copy, so aliasing of that object is not captured.
- Editor.Flip: the edge type 'custom' that `onConnect` sets is not modelled.
- Editor.RewriteEndpoints: a moved edge whose parsed endpoint is NaN triggers no rewrite. The source would write NaN ids into the document.
- `parseInt` reads decimal digits only. Prefixes such as `0x` are not modelled; node ids never contain them.
- CausalChain.GroupDrivers: the group order is first appearance. For group names that look like integers, `Object.entries` would list them in numeric order instead.
- The reset of the driver name after `handleAddDriver` is a UI detail and is not modelled.
- StateForm.HandleChange: the field is a `Key` of the details. Input names outside the form's fields are not modelled.
- SchemeEditor.HandleSave checks the current validation result. The source reads the error list that an effect recomputes after each edit, which holds the same messages once the effect has run.
- The router can return a `right-top-source` handle that the node component does not declare. No claim is made that routed handles exist on the node.
- The editor's other handlers are not part of this model: saving a transition, clicking an edge, re-running the layout and inline label edits.
- Editor.NewTransition, Editor.EditorState.CreateNewEdge, Editor.EditorState.HandleSaveNode: ids come from `NextId` (1 for an empty list), not the source's -Infinity (App.tsx:394 and 505); the as-written id is `MaxPlusOne`, and `FirstIdIsNotAnId` shows the difference.

## Findings

| source | as written | input that shows it | evidently intended | confidence | as-written member | corrected member |
|---|---|---|---|---|---|---|
| src/utils/stateTransitionUtils.tsx:459-460 | "first direction" is keyed by the ordered pair of states, so a transition and its reverse are both first | plausible transitions 1→2 then 2→1, both nodes on the canvas: both edges get centred handles and curvature 0.2, and the second enters exactly where the first leaves | the later transition of the pair is second: offset handles and curvature 0.4, so the two edges do not share an attachment point | not executed | EdgeProperties.ReversePairBothFirst | EdgeProperties.IntendedReverseSeparate |
| src/App.tsx:394, 505 | the new id is `Math.max(...ids) + 1` | a document without transitions (or without states): `Math.max()` is -Infinity, so the new transition (or state) gets id -Infinity | the first id is 1, otherwise one more than the largest | not executed | Editor.FirstIdIsNotAnId | Editor.NextId |

The router (`EdgesOf`, `TransitionsToEdges`) follows the code as written. The
editor assigns ids with `NextId`.
