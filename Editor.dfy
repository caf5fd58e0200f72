/** The editor screen: the loaded document, the canvas nodes and edges, the
    edge-creation mode and the dialogs, and the handlers that change them. */
module Editor {
  import opened Common
  import opened Model
  import opened DataLoader
  import opened Edges
  import opened Filters
  import opened StateNodes

  // ---------------------------------------------------------------------------
  // New ids

  /** The largest of a non-empty list of ids. */
  function Max(ids: seq<int>): (m: int)
    requires ids != []
    ensures m in ids && forall i | i in ids :: i <= m
  {
    if |ids| == 1 then ids[0]
    else
      var m := Max(ids[1..]);
      assert forall i | i in ids :: i == ids[0] || i in ids[1..];
      if ids[0] >= m then ids[0] else m
  }

  /** What `Math.max(...ids) + 1` evaluates to: an integer, or -Infinity when
      there are no ids. */
  datatype MaxResult = NegInfinity | Int(value: int)

  /** The id computation as written. */
  function MaxPlusOne(ids: seq<int>): (r: MaxResult)
    ensures r.NegInfinity? <==> ids == []
    ensures r.Int? ==> forall i | i in ids :: i < r.value
  {
    if ids == [] then NegInfinity else Int(Max(ids) + 1)
  }

  /** The first transition drawn in a document without transitions (and the
      first state added to a document without states) gets -Infinity as its
      id, which is not an id. */
  lemma FirstIdIsNotAnId(doc: Document)
    requires doc.transitions == []
    ensures MaxPlusOne(TransitionIds(doc.transitions)).NegInfinity?
  {
  }

  /** The id given to a new transition or state: one more than the largest
      id, and 1 when there is none yet. It agrees with `Math.max(...ids) + 1`
      on every non-empty list. */
  function NextId(ids: seq<int>): (r: int)
    ensures forall i | i in ids :: i < r
    ensures r !in ids
    ensures ids != [] ==> MaxPlusOne(ids) == Int(r)
    ensures ids == [] ==> r == 1
  {
    if ids == [] then 1 else Max(ids) + 1
  }

  function StateIds(states: seq<State>): seq<int>
  {
    MapSeq(states, (s: State) => s.id)
  }

  // ---------------------------------------------------------------------------
  // Lookups (`find`: the first match)

  function FindState(states: seq<State>, id: int): (r: Option<State>)
    ensures r.Some? ==> r.value in states && r.value.id == id
    ensures r.None? <==> forall s | s in states :: s.id != id
  {
    if states == [] then None
    else if states[0].id == id then Some(states[0])
    else FindState(states[1..], id)
  }

  function FindTransition(ts: seq<Transition>, id: int): (r: Option<Transition>)
    ensures r.Some? ==> r.value in ts && r.value.id == id
    ensures r.None? <==> forall t | t in ts :: t.id != id
  {
    if ts == [] then None
    else if ts[0].id == id then Some(ts[0])
    else FindTransition(ts[1..], id)
  }

  function FindEdge(eds: seq<Edge>, id: string): (r: Option<Edge>)
    ensures r.Some? ==> r.value in eds && r.value.id == id
    ensures r.None? <==> forall e | e in eds :: e.id != id
  {
    if eds == [] then None
    else if eds[0].id == id then Some(eds[0])
    else FindEdge(eds[1..], id)
  }

  // ---------------------------------------------------------------------------
  // Creating a transition from an edge

  /** The transition `createNewEdge` adds for an edge between two node ids,
      or None when either node id names no state of the document. */
  function NewTransition(doc: Document, source: string, target: string): (r: Option<Transition>)
    ensures r.None? <==>
      StateIdOfNode(source).None? || StateIdOfNode(target).None? ||
      FindState(doc.states, StateIdOfNode(source).value).None? ||
      FindState(doc.states, StateIdOfNode(target).value).None?
    ensures r.Some? ==>
      var t := r.value;
      (forall i | i in TransitionIds(doc.transitions) :: i < t.id) &&
      t.stmName == doc.stmName &&
      t.startId == StateIdOfNode(source).value && t.endId == StateIdOfNode(target).value &&
      t.startState == FindState(doc.states, t.startId).value.name &&
      t.endState == FindState(doc.states, t.endId).value.name &&
      t.time25 == 1.0 && t.time100 == 0.0 && t.likelihood25 == 1.0 && t.likelihood100 == 0.0 &&
      t.notes == "" && t.causalChain == [] && t.delta == Finite(0.0)
  {
    match (StateIdOfNode(source), StateIdOfNode(target))
    case (Some(a), Some(b)) =>
      (match (FindState(doc.states, a), FindState(doc.states, b))
       case (Some(s), Some(e)) =>
         Some(Transition(NextId(TransitionIds(doc.transitions)), doc.stmName, s.name, a, e.name, b,
                         1.0, 0.0, 1.0, 0.0, "", [], Finite(0.0)))
       case _ => None)
    case _ => None
  }

  /** The edge after `createNewEdge` has stamped it with the new transition's
      id and data. */
  function CreatedEdge(edge: Edge, t: Transition): (e: Edge)
    ensures e.id == EdgeId(t.id) && e.source == edge.source && e.target == edge.target
    ensures e.sourceHandle == edge.sourceHandle && e.targetHandle == edge.targetHandle
    ensures e.data.Some? && e.data.value.transitionId == t.id
  {
    edge.(id := EdgeId(t.id),
          data := Some(EdgeData(t.id, t.startId, t.endId, t.time25, t.time100, t.delta, t.notes, None, None, None)))
  }

  /** The stamped edge carries the transition it was created for, as the
      edge router would; only its endpoints keep the node ids it was drawn
      between. */
  lemma CreatedEdgeCarriesTransition(doc: Document, edge: Edge)
    requires NewTransition(doc, edge.source, edge.target).Some?
    ensures var t := NewTransition(doc, edge.source, edge.target).value;
      var d := CreatedEdge(edge, t).data.value;
      d.startStateId == StateIdOfNode(edge.source).value && d.endStateId == StateIdOfNode(edge.target).value &&
      d.time25 == 1.0 && d.time100 == 0.0 && d.transitionDelta == Finite(0.0) && d.notes == "" &&
      d.curvature.None? && d.isBidirectional.None? && d.isLoop.None?
  {
  }

  /** An edge drawn between two state nodes creates a transition between
      those states. */
  lemma NewTransitionBetweenStates(doc: Document, a: State, b: State)
    requires a in doc.states && b in doc.states
    ensures var r := NewTransition(doc, NodeId(a.id), NodeId(b.id));
      r.Some? && r.value.startId == a.id && r.value.endId == b.id
  {
    StateIdOfNodeId(a.id);
    StateIdOfNodeId(b.id);
  }

  /** The edge the second click of edge-creation mode passes on has empty
      endpoints, which name no state: it never creates a transition. */
  lemma EmptyEndpointsCreateNothing(doc: Document)
    ensures NewTransition(doc, "", "").None?
  {
    assert RemoveFirst("", "state-") == "";
    assert TrimStart("") == "";
    assert ParseInt("") == None;
  }

  // ---------------------------------------------------------------------------
  // Node updates

  /** Marks exactly the node with the given id as selected. */
  function SelectOnly(nodes: seq<Node>, id: string): (r: seq<Node>)
    ensures |r| == |nodes|
    ensures forall i | 0 <= i < |nodes| :: r[i].(selected := false) == nodes[i].(selected := false)
    ensures forall i | 0 <= i < |nodes| :: r[i].selected <==> nodes[i].id == id
  {
    MapSeq(nodes, (n: Node) => n.(selected := n.id == id))
  }

  /** Clears the selection mark of every node. */
  function Deselected(nodes: seq<Node>): (r: seq<Node>)
    ensures |r| == |nodes|
    ensures forall i | 0 <= i < |nodes| :: r[i].(selected := false) == nodes[i].(selected := false)
    ensures forall i | 0 <= i < |nodes| :: !r[i].selected
  {
    MapSeq(nodes, (n: Node) => n.(selected := false))
  }

  /** The attributes a node stores from the node dialog: the dialog's node id
      is not kept. */
  function Stored(attrs: NodeAttributes): NodeAttributes
  {
    attrs.(nodeId := None)
  }

  /** Relabels the node with the given id from the dialog's attributes. */
  function EditedNodes(nodes: seq<Node>, id: string, attrs: NodeAttributes): (r: seq<Node>)
    ensures |r| == |nodes|
    ensures forall i | 0 <= i < |nodes| ::
      r[i].id == nodes[i].id && r[i].position == nodes[i].position && r[i].selected == nodes[i].selected
    ensures forall i | 0 <= i < |nodes| && nodes[i].id == id ::
      r[i].labelText == attrs.stateName && r[i].attributes == Some(Stored(attrs))
    ensures forall i | 0 <= i < |nodes| && nodes[i].id != id :: r[i] == nodes[i]
  {
    MapSeq(nodes, (n: Node) =>
      if n.id == id then n.(labelText := attrs.stateName, attributes := Some(Stored(attrs))) else n)
  }

  /** Renames the states whose id is the parsed id; a NaN id matches none. */
  function RenamedStates(states: seq<State>, id: Option<int>, name: string): (r: seq<State>)
    ensures |r| == |states|
    ensures forall i | 0 <= i < |states| :: r[i].(name := "") == states[i].(name := "")
    ensures forall i | 0 <= i < |states| ::
      r[i].name == (if id == Some(states[i].id) then name else states[i].name)
  {
    MapSeq(states, (s: State) => if id == Some(s.id) then s.(name := name) else s)
  }

  /** Editing the node of a state renames exactly the states with that
      state's id. */
  lemma EditRenamesOwnState(states: seq<State>, stateId: int, name: string)
    ensures var r := RenamedStates(states, StateIdOfNode(NodeId(stateId)), name);
      forall i | 0 <= i < |states| :: r[i].name == (if states[i].id == stateId then name else states[i].name)
  {
    StateIdOfNodeId(stateId);
  }

  /** The state `handleSaveNode` adds for a new node: condition range [0, 1]
      and the "no estimate" sentinel elsewhere. */
  function NewState(id: int, attrs: NodeAttributes): (s: State)
    ensures s.id == id && s.name == attrs.stateName && s.vast.vastClass == attrs.vastClass
    ensures s.conditionLower == 0.0 && s.conditionUpper == 1.0
    ensures s.eksConditionEstimate == Sentinel && s.vast.vastEksState == Sentinel
    ensures s.vast.vastName == "" && s.vast.link == "" && s.elicitationType == "user-created"
    ensures s.attributes.None?
  {
    State(id, attrs.stateName, VastState(attrs.vastClass, "", Sentinel, "", "", "", ""),
          1.0, 0.0, Sentinel, "user-created", None)
  }

  /** A new state gets an id no state of the document has, and its node shows
      the range [0, 1]. */
  lemma NewStateFresh(states: seq<State>, attrs: NodeAttributes)
    ensures var s := NewState(NextId(StateIds(states)), attrs);
      FindState(states, s.id).None? && ConditionOf(s) == ConditionRange(0.0, 1.0)
  {
    var s := NewState(NextId(StateIds(states)), attrs);
    forall x | x in states ensures x.id != s.id {
      var i :| 0 <= i < |states| && states[i] == x;
      assert StateIds(states)[i] == x.id;
    }
  }

  // ---------------------------------------------------------------------------
  // Connecting two handles by dragging

  /** The name of a handle: `<side>-<offset>-<role>`. */
  function SideName(s: Side): string
  {
    match s
    case Top => "top"
    case Right => "right"
    case Bottom => "bottom"
    case Left => "left"
  }

  function OffsetName(o: Offset): string
  {
    match o
    case Center => "center"
    case Toward(s) => SideName(s)
  }

  function RoleName(r: Role): string
  {
    match r
    case Source => "source"
    case Target => "target"
  }

  function HandleName(h: Handle): string
  {
    SideName(h.side) + "-" + OffsetName(h.offset) + "-" + RoleName(h.role)
  }

  /** The part of a handle name before its role. */
  function HandleStem(h: Handle): string
  {
    SideName(h.side) + "-" + OffsetName(h.offset) + "-"
  }

  lemma StemLetters(h: Handle)
    ensures forall k | 0 <= k < |HandleStem(h)| :: HandleStem(h)[k] != 'a' && HandleStem(h)[k] != 's'
    ensures HandleStem(h)[|HandleStem(h)| - 1] == '-'
  {
    var a, b := SideName(h.side), OffsetName(h.offset);
    assert forall k | 0 <= k < |a| :: a[k] != 'a' && a[k] != 's';
    assert forall k | 0 <= k < |b| :: b[k] != 'a' && b[k] != 's';
  }

  /** `replace("target", "source")` turns any handle name into the name of
      the same handle in the source role. */
  lemma RenameToSource(h: Handle)
    ensures ReplaceFirst(HandleName(h), "target", "source") == HandleName(h.(role := Source))
  {
    var p := HandleStem(h);
    StemLetters(h);
    assert HandleName(h) == p + RoleName(h.role);
    ReplaceFirstSkips(p, RoleName(h.role), "target", "source", 1);
    if h.role == Source {
      ReplaceFirstSkips("source", [], "target", "source", 1);
      assert "source" + [] == "source";
    } else {
      assert StartsWith("target", "target");
    }
    assert HandleName(h.(role := Source)) == p + "source";
  }

  /** `replace("source", "target")` turns any handle name into the name of
      the same handle in the target role. */
  lemma RenameToTarget(h: Handle)
    ensures ReplaceFirst(HandleName(h), "source", "target") == HandleName(h.(role := Target))
  {
    var p := HandleStem(h);
    StemLetters(h);
    assert HandleName(h) == p + RoleName(h.role);
    ReplaceFirstSkips(p, RoleName(h.role), "source", "target", 0);
    if h.role == Target {
      ReplaceFirstSkips("target", [], "source", "target", 0);
      assert "target" + [] == "target";
    } else {
      assert StartsWith("source", "source");
    }
    assert HandleName(h.(role := Target)) == p + "target";
  }

  datatype Connection = Connection(source: string, target: string,
                                   sourceHandle: Option<Handle>, targetHandle: Option<Handle>)

  function WithRole(h: Option<Handle>, r: Role): Option<Handle>
  {
    match h
    case None => None
    case Some(x) => Some(x.(role := r))
  }

  /** The connection `onConnect` adds: the ends swapped, the former target
      handle renamed to a source handle and the former source handle to a
      target handle (the renaming is `RenameToSource` / `RenameToTarget`). */
  function Flip(c: Connection): (f: Connection)
    ensures f.source == c.target && f.target == c.source
  {
    Connection(c.target, c.source, WithRole(c.targetHandle, Source), WithRole(c.sourceHandle, Target))
  }

  /** Handles in the roles their ends call for. */
  predicate WellRoled(c: Connection)
  {
    (c.sourceHandle.Some? ==> c.sourceHandle.value.role == Source) &&
    (c.targetHandle.Some? ==> c.targetHandle.value.role == Target)
  }

  /** A flipped connection is always well-roled, and flipping twice gives the
      connection back exactly when it was well-roled. */
  lemma FlipRoles(c: Connection)
    ensures WellRoled(Flip(c))
    ensures Flip(Flip(c)) == c <==> WellRoled(c)
  {
  }

  // ---------------------------------------------------------------------------
  // Moving an edge's endpoints

  /** The ends or handles of an edge differ between two versions. */
  predicate Moved(u: Edge, o: Edge)
  {
    u.source != o.source || u.target != o.target || u.sourceHandle != o.sourceHandle || u.targetHandle != o.targetHandle
  }

  /** The document after the endpoint rewrite triggered by deselecting one
      edge, computed from the document the handler captured; None when the
      edge triggers none. */
  function Rewrite(doc: Document, before: seq<Edge>, after: seq<Edge>, edgeId: string): Option<Document>
  {
    match (FindEdge(after, edgeId), FindEdge(before, edgeId))
    case (Some(u), Some(o)) =>
      if Moved(u, o) && u.data.Some? && u.data.value.transitionId != 0 then
        match FindTransition(doc.transitions, u.data.value.transitionId)
        case None => None
        case Some(t) =>
          (match (StateIdOfNode(u.source), StateIdOfNode(u.target))
           case (Some(a), Some(b)) => Some(UpdateTransition(doc, t.(startId := a, endId := b)))
           case _ => None)
      else None
    case _ => None
  }

  /** The rewrite of one moved edge: every transition with the edge's
      transition id takes the parsed endpoints and otherwise becomes the
      first transition with that id; every other transition and the states
      stay as they were. */
  lemma RewriteEndpoints(doc: Document, before: seq<Edge>, after: seq<Edge>, edgeId: string)
    requires Rewrite(doc, before, after, edgeId).Some?
    ensures var u := FindEdge(after, edgeId).value;
      var tid := u.data.value.transitionId;
      var t := FindTransition(doc.transitions, tid).value;
      var d := Rewrite(doc, before, after, edgeId).value;
      d.states == doc.states && |d.transitions| == |doc.transitions| &&
      forall i | 0 <= i < |doc.transitions| ::
        if doc.transitions[i].id == tid then
          d.transitions[i].startId == StateIdOfNode(u.source).value &&
          d.transitions[i].endId == StateIdOfNode(u.target).value &&
          d.transitions[i].(startId := t.startId, endId := t.endId) == t
        else d.transitions[i] == doc.transitions[i]
  {
  }

  /** Moving an edge onto two state nodes reconnects its transition to those
      states. */
  lemma RewriteToStates(doc: Document, before: seq<Edge>, after: seq<Edge>, edgeId: string, a: int, b: int)
    requires FindEdge(after, edgeId).Some?
    requires FindEdge(after, edgeId).value.source == NodeId(a) && FindEdge(after, edgeId).value.target == NodeId(b)
    requires Rewrite(doc, before, after, edgeId).Some?
    ensures var tid := FindEdge(after, edgeId).value.data.value.transitionId;
      var d := Rewrite(doc, before, after, edgeId).value;
      forall i | 0 <= i < |d.transitions| && d.transitions[i].id == tid ::
        d.transitions[i].startId == a && d.transitions[i].endId == b
  {
    StateIdOfNodeId(a);
    StateIdOfNodeId(b);
    RewriteEndpoints(doc, before, after, edgeId);
  }

  /** The outcome of the rewrites for a list of deselected edges: each one
      starts again from the captured document, so the last that happens is
      the only one kept. */
  function LastRewrite(doc: Document, before: seq<Edge>, after: seq<Edge>, ids: seq<string>): Option<Document>
  {
    if ids == [] then None
    else
      match Rewrite(doc, before, after, ids[|ids| - 1])
      case Some(d) => Some(d)
      case None => LastRewrite(doc, before, after, ids[..|ids| - 1])
  }

  /** Whatever several deselected edges did, the document afterwards holds the
      rewrite of one edge only: earlier rewrites are lost. */
  lemma {:induction false} OnlyOneRewriteKept(doc: Document, before: seq<Edge>, after: seq<Edge>, ids: seq<string>)
    ensures LastRewrite(doc, before, after, ids).Some? ==>
      exists k | 0 <= k < |ids| :: LastRewrite(doc, before, after, ids) == Rewrite(doc, before, after, ids[k])
  {
    if ids != [] && Rewrite(doc, before, after, ids[|ids| - 1]).None? {
      var ids' := ids[..|ids| - 1];
      OnlyOneRewriteKept(doc, before, after, ids');
      if LastRewrite(doc, before, after, ids').Some? {
        var k :| 0 <= k < |ids'| && LastRewrite(doc, before, after, ids') == Rewrite(doc, before, after, ids'[k]);
        assert ids'[k] == ids[k];
      }
    }
  }

  // ---------------------------------------------------------------------------
  // The editor

  /** The edge the second click of edge-creation mode builds: no id, no data,
      empty endpoints. */
  const BlankEdge := Edge("", "", "", None, None, None)

  class EditorState {
    var doc: Option<Document>
    var nodes: seq<Node>
    var edges: seq<Edge>
    var edgeCreationMode: bool
    var startNodeId: Option<string>
    var showSelfTransitions: bool
    var deltaFilter: DeltaFilter
    var plausibleOnly: bool
    var hasNotesOnly: bool
    var isNodeModalOpen: bool
    var isEditing: bool
    var currentNodeId: Option<string>
    var initialNodeValues: Option<NodeAttributes>
    var isTransitionModalOpen: bool
    var currentTransition: Option<Transition>

    /** Edge-creation mode: a start node is only recorded in the mode, and
        while one is recorded it is the only node marked selected. */
    predicate Valid()
      reads this
    {
      (!edgeCreationMode ==> startNodeId.None?) &&
      (startNodeId.Some? ==> forall i | 0 <= i < |nodes| :: nodes[i].selected <==> nodes[i].id == startNodeId.value)
    }

    /** The editor before anything is loaded. */
    constructor ()
      ensures Valid()
      ensures doc.None? && nodes == [] && edges == []
      ensures !edgeCreationMode && startNodeId.None?
      ensures !showSelfTransitions && deltaFilter == All && plausibleOnly && !hasNotesOnly
      ensures !isNodeModalOpen && !isEditing && currentNodeId.None? && initialNodeValues.None?
      ensures !isTransitionModalOpen && currentTransition.None?
    {
      doc := None;
      nodes := [];
      edges := [];
      edgeCreationMode := false;
      startNodeId := None;
      showSelfTransitions := false;
      deltaFilter := All;
      plausibleOnly := true;
      hasNotesOnly := false;
      isNodeModalOpen := false;
      isEditing := false;
      currentNodeId := None;
      initialNodeValues := None;
      isTransitionModalOpen := false;
      currentTransition := None;
    }

    /** A loaded document: its states laid out as nodes, and no edges until
        they are asked for. */
    method Load(data: Document)
      modifies this`doc, this`nodes, this`edges
      ensures doc == Some(data) && nodes == StatesToNodes(data.states, data.transitions) && edges == []
      ensures old(Valid()) && startNodeId.None? ==> Valid()
    {
      doc := Some(data);
      nodes := StatesToNodes(data.states, data.transitions);
      edges := [];
    }

    /** `refreshEdges`: with a document, the edges become the routed edges of
        the transitions that pass the toggles and the delta filter. */
    method RefreshEdges()
      modifies this`edges
      ensures doc.Some? ==> edges == RefreshedEdges(doc.value.transitions, nodes, showSelfTransitions,
                                                    plausibleOnly, hasNotesOnly, deltaFilter)
      ensures doc.None? ==> edges == old(edges)
    {
      if doc.None? {
        return;
      }
      var trans := FilterTransitions(doc.value.transitions, plausibleOnly, hasNotesOnly);
      var edges0 := TransitionsToEdges(trans, nodes, showSelfTransitions);
      edges := if deltaFilter == All then edges0 else FilterEdgesByDelta(edges0, deltaFilter);
    }

    /** `toggleEdgeCreationMode`: leaving the mode forgets the start node and
        clears every selection mark. */
    method ToggleEdgeCreationMode()
      modifies this`edgeCreationMode, this`startNodeId, this`nodes
      ensures edgeCreationMode == !old(edgeCreationMode)
      ensures old(edgeCreationMode) ==> startNodeId.None? && nodes == Deselected(old(nodes))
      ensures !old(edgeCreationMode) ==> startNodeId == old(startNodeId) && nodes == old(nodes)
      ensures old(Valid()) ==> Valid()
    {
      if edgeCreationMode {
        startNodeId := None;
        nodes := Deselected(nodes);
      }
      edgeCreationMode := !edgeCreationMode;
    }

    /** `createNewEdge`: with a document and two endpoints naming states, the
        new transition is appended, the stamped edge is appended to the
        canvas and the transition dialog opens on it; otherwise nothing
        changes. */
    method CreateNewEdge(edge: Edge)
      modifies this`doc, this`edges, this`currentTransition, this`isTransitionModalOpen
      ensures old(doc).None? || NewTransition(old(doc).value, edge.source, edge.target).None? ==>
        doc == old(doc) && edges == old(edges) && currentTransition == old(currentTransition) &&
        isTransitionModalOpen == old(isTransitionModalOpen)
      ensures old(doc).Some? && NewTransition(old(doc).value, edge.source, edge.target).Some? ==>
        var t := NewTransition(old(doc).value, edge.source, edge.target).value;
        doc == Some(old(doc).value.(transitions := old(doc).value.transitions + [t])) &&
        edges == old(edges) + [CreatedEdge(edge, t)] &&
        currentTransition == Some(t) && isTransitionModalOpen
    {
      if doc.None? {
        return;
      }
      var d := doc.value;
      var created := NewTransition(d, edge.source, edge.target);
      if created.None? {
        return;
      }
      var t := created.value;
      doc := Some(d.(transitions := d.transitions + [t]));
      edges := edges + [CreatedEdge(edge, t)];
      currentTransition := Some(t);
      isTransitionModalOpen := true;
    }

    /** `handleNodeClick`. In edge-creation mode the first click records the
        start node and selects only it; the second passes an edge with empty
        endpoints on, which creates nothing, then clears the selection and
        leaves the mode. Outside the mode a click on a known node opens the
        node dialog to edit it. */
    method HandleNodeClick(nodeId: string)
      modifies this`edgeCreationMode, this`startNodeId, this`nodes, this`doc, this`edges
      modifies this`currentTransition, this`isTransitionModalOpen
      modifies this`currentNodeId, this`initialNodeValues, this`isEditing, this`isNodeModalOpen
      ensures doc == old(doc) && edges == old(edges)
      ensures old(Valid()) ==> Valid()
      ensures old(edgeCreationMode) && old(startNodeId).None? ==>
        edgeCreationMode && startNodeId == Some(nodeId) && nodes == SelectOnly(old(nodes), nodeId)
      ensures old(edgeCreationMode) && old(startNodeId).Some? ==>
        !edgeCreationMode && startNodeId.None? && nodes == Deselected(old(nodes))
      ensures !old(edgeCreationMode) ==>
        !edgeCreationMode && startNodeId == old(startNodeId) && nodes == old(nodes)
      ensures !old(edgeCreationMode) && FindNode(old(nodes), nodeId).Some? ==>
        var n := FindNode(old(nodes), nodeId).value;
        currentNodeId == Some(nodeId) && isEditing && isNodeModalOpen &&
        initialNodeValues == Some(match n.attributes
          case None => NodeAttributes(n.labelText, "", "", Entered(""), Some(nodeId))
          case Some(a) => a.(stateName := n.labelText, nodeId := Some(nodeId)))
      ensures old(edgeCreationMode) || FindNode(old(nodes), nodeId).None? ==>
        currentNodeId == old(currentNodeId) && isEditing == old(isEditing) &&
        isNodeModalOpen == old(isNodeModalOpen) && initialNodeValues == old(initialNodeValues)
      ensures currentTransition == old(currentTransition) && isTransitionModalOpen == old(isTransitionModalOpen)
    {
      if edgeCreationMode {
        if startNodeId.None? {
          startNodeId := Some(nodeId);
          nodes := SelectOnly(nodes, nodeId);
        } else {
          if doc.Some? {
            EmptyEndpointsCreateNothing(doc.value);
          }
          CreateNewEdge(BlankEdge);
          nodes := Deselected(nodes);
          startNodeId := None;
          edgeCreationMode := false;
        }
      } else {
        var found := FindNode(nodes, nodeId);
        if found.Some? {
          var n := found.value;
          currentNodeId := Some(nodeId);
          initialNodeValues := Some(match n.attributes
            case None => NodeAttributes(n.labelText, "", "", Entered(""), Some(nodeId))
            case Some(a) => a.(stateName := n.labelText, nodeId := Some(nodeId)));
          isEditing := true;
          isNodeModalOpen := true;
        }
      }
    }

    /** `handleSaveNode`. Editing a node relabels it and, when it is the node
        of a state, renames that state; otherwise a new node is added at the
        given point with the given id and, with a document, a new state with
        a fresh id. The node dialog closes either way. */
    method HandleSaveNode(attrs: NodeAttributes, newNodeId: string, center: Point)
      modifies this`nodes, this`doc, this`isNodeModalOpen
      ensures !isNodeModalOpen
      ensures old(isEditing) && old(currentNodeId).Some? && old(currentNodeId).value != "" ==>
        var id := old(currentNodeId).value;
        nodes == EditedNodes(old(nodes), id, attrs) &&
        doc == (if old(doc).Some? && StartsWith(id, "state-") then
                  Some(old(doc).value.(states := RenamedStates(old(doc).value.states, StateIdOfNode(id), attrs.stateName)))
                else old(doc))
      ensures !(old(isEditing) && old(currentNodeId).Some? && old(currentNodeId).value != "") ==>
        nodes == old(nodes) + [Node(newNodeId, center, attrs.stateName, Some(Stored(attrs)), false)] &&
        doc == (if old(doc).Some? then
                  Some(old(doc).value.(states := old(doc).value.states +
                                        [NewState(NextId(StateIds(old(doc).value.states)), attrs)]))
                else None)
      ensures old(Valid()) && old(startNodeId) != Some(newNodeId) ==> Valid()
    {
      if isEditing && currentNodeId.Some? && currentNodeId.value != "" {
        var id := currentNodeId.value;
        nodes := EditedNodes(nodes, id, attrs);
        if doc.Some? && StartsWith(id, "state-") {
          var stateId := StateIdOfNode(id);
          doc := Some(doc.value.(states := RenamedStates(doc.value.states, stateId, attrs.stateName)));
        }
      } else {
        nodes := nodes + [Node(newNodeId, center, attrs.stateName, Some(Stored(attrs)), false)];
        if doc.Some? {
          var newStateId := NextId(StateIds(doc.value.states));
          doc := Some(doc.value.(states := doc.value.states + [NewState(newStateId, attrs)]));
        }
      }
      isNodeModalOpen := false;
    }

    /** `handleEdgesChange`: the canvas takes the changed edges; each
        deselected edge whose ends or handles moved rewrites its transition's
        endpoints in the document the handler captured, so the document ends
        up with the last such rewrite only. */
    method HandleEdgesChange(newEdges: seq<Edge>, deselectedIds: seq<string>)
      modifies this`edges, this`doc
      ensures edges == newEdges
      ensures old(doc).None? ==> doc.None?
      ensures old(doc).Some? ==>
        doc == match LastRewrite(old(doc).value, old(edges), newEdges, deselectedIds)
               case Some(d) => Some(d)
               case None => old(doc)
    {
      var eds := edges;
      var captured := doc;
      if captured.Some? {
        var i := 0;
        while i < |deselectedIds|
          invariant 0 <= i <= |deselectedIds|
          invariant doc == match LastRewrite(captured.value, eds, newEdges, deselectedIds[..i])
                           case Some(d) => Some(d)
                           case None => captured
        {
          assert deselectedIds[..i + 1][..i] == deselectedIds[..i];
          var r := Rewrite(captured.value, eds, newEdges, deselectedIds[i]);
          if r.Some? {
            doc := r;
          }
          i := i + 1;
        }
        assert deselectedIds[..i] == deselectedIds;
      }
      edges := newEdges;
    }
  }
}
