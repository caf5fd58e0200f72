/** The state-and-transition document the editor loads and edits, and the
    graph entities (nodes, edges, handles) it is drawn with. */
module Model {
  import opened Common

  datatype VastState = VastState(
    vastClass: string,
    vastName: string,
    vastEksState: real,
    overstoreyClass: string,
    understoreyClass: string,
    substate: string,
    link: string)

  /** One ecosystem state. Its free-form `attributes` JSON is kept as text. */
  datatype State = State(
    id: int,
    name: string,
    vast: VastState,
    conditionUpper: real,
    conditionLower: real,
    eksConditionEstimate: real,
    elicitationType: string,
    attributes: Option<string>)

  /** A driver of a causal chain part, tagged with its driver group. */
  datatype Driver = Driver(driver: string, group: string)

  datatype ChainPart = ChainPart(name: string, drivers: seq<Driver>)

  /** A transition between two states. A missing `transition_delta` is NaN. */
  datatype Transition = Transition(
    id: int,
    stmName: string,
    startState: string,
    startId: int,
    endState: string,
    endId: int,
    time25: real,
    time100: real,
    likelihood25: real,
    likelihood100: real,
    notes: string,
    causalChain: seq<ChainPart>,
    delta: JsNum)

  /** The descriptive fields of a document, which no editing operation touches. */
  datatype Metadata = Metadata(
    version: string,
    releaseDate: string,
    authorisedBy: string,
    contributingExperts: seq<string>,
    region: string,
    regionId: int,
    climate: string,
    ecosystemType: string,
    archetypeCode: int,
    archetypeName: string,
    umbrellaCode: int,
    peerReviewed: string,
    peerReviewerCount: int,
    methodAlignment: string)

  datatype Document = Document(
    stmName: string,
    meta: Metadata,
    states: seq<State>,
    transitions: seq<Transition>)

  /** The value the data uses for "no estimate". */
  const Sentinel: real := -9999.0

  // ---------------------------------------------------------------------------
  // Graph entities

  datatype Point = Point(x: real, y: real)

  /** The condition line shown on a node: "No condition data", the rendering
      "Condition range: l - u" of a state's bounds, or text typed in a form. */
  datatype Condition = NoConditionData | ConditionRange(lower: real, upper: real) | Entered(text: string)

  datatype NodeAttributes = NodeAttributes(
    stateName: string,
    stateNumber: string,
    vastClass: string,
    condition: Condition,
    nodeId: Option<string>)

  /** A canvas node; an absent `isSelected` flag is `false`. */
  datatype Node = Node(
    id: string,
    position: Point,
    labelText: string,
    attributes: Option<NodeAttributes>,
    selected: bool)

  datatype Side = Top | Right | Bottom | Left

  /** Where a handle sits along its side: the middle, or shifted toward a
      neighbouring side (`right-top` is the right side, toward the top). */
  datatype Offset = Center | Toward(toward: Side)

  datatype Role = Source | Target

  /** A handle id such as `right-center-source`. */
  datatype Handle = Handle(side: Side, offset: Offset, role: Role)

  datatype EdgeData = EdgeData(
    transitionId: int,
    startStateId: int,
    endStateId: int,
    time25: real,
    time100: real,
    transitionDelta: JsNum,
    notes: string,
    curvature: Option<real>,
    isBidirectional: Option<bool>,
    isLoop: Option<bool>)

  /** A canvas edge; `data` is None for an edge carrying no transition data. */
  datatype Edge = Edge(
    id: string,
    source: string,
    target: string,
    sourceHandle: Option<Handle>,
    targetHandle: Option<Handle>,
    data: Option<EdgeData>)

  // ---------------------------------------------------------------------------
  // Ids

  /** The node id of a state: `state-<state_id>`. */
  function NodeId(stateId: int): string
  {
    "state-" + DecimalString(stateId)
  }

  /** The edge id of a transition: `transition-<transition_id>`. */
  function EdgeId(transitionId: int): string
  {
    "transition-" + DecimalString(transitionId)
  }

  /** `parseInt(nodeId.replace("state-", ""))`; None stands for NaN. */
  function StateIdOfNode(nodeId: string): Option<int>
  {
    ParseInt(RemoveFirst(nodeId, "state-"))
  }

  /** Reading the state id back from a node id gives the state id. */
  lemma StateIdOfNodeId(stateId: int)
    ensures StateIdOfNode(NodeId(stateId)) == Some(stateId)
  {
    var s := NodeId(stateId);
    assert s[..6] == "state-";
    assert s[6..] == DecimalString(stateId);
    ParseIntDecimal(stateId);
  }

  /** Distinct states have distinct node ids. */
  lemma NodeIdInjective(a: int, b: int)
    requires NodeId(a) == NodeId(b)
    ensures a == b
  {
    StateIdOfNodeId(a);
    StateIdOfNodeId(b);
  }
}
