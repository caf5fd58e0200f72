/** Turning the states of a document into canvas nodes placed by the layout. */
module StateNodes {
  import opened Common
  import opened Model
  import opened NodeLayout
  import opened NodeLayoutProperties

  /** The condition line of a state: no data when either bound is the
      sentinel -9999, the range of its bounds otherwise. */
  function ConditionOf(s: State): (c: Condition)
    ensures c == NoConditionData <==> s.conditionUpper == Sentinel || s.conditionLower == Sentinel
    ensures c != NoConditionData ==> c == ConditionRange(s.conditionLower, s.conditionUpper)
  {
    if s.conditionUpper == Sentinel || s.conditionLower == Sentinel then NoConditionData
    else ConditionRange(s.conditionLower, s.conditionUpper)
  }

  /** The attributes shown on a state's node. */
  function AttributesOf(s: State): NodeAttributes
  {
    NodeAttributes(s.name, DecimalString(s.id), s.vast.vastClass, ConditionOf(s), None)
  }

  function NodeOf(s: State, positions: map<int, Point>): Node
  {
    var position := if s.id in positions then positions[s.id] else Point(0.0, 0.0);
    Node(NodeId(s.id), position, s.name, Some(AttributesOf(s)), false)
  }

  /** One node per state, in state order, at the optimised layout's position. */
  function StatesToNodes(states: seq<State>, ts: seq<Transition>): (nodes: seq<Node>)
    ensures |nodes| == |states|
    ensures forall i | 0 <= i < |states| :: StateIdOfNode(nodes[i].id) == Some(states[i].id)
  {
    var positions := Layout(states, ts);
    var nodes := seq(|states|, i requires 0 <= i < |states| => NodeOf(states[i], positions));
    assert forall i | 0 <= i < |states| :: StateIdOfNode(nodes[i].id) == Some(states[i].id) by {
      forall i | 0 <= i < |states| ensures StateIdOfNode(nodes[i].id) == Some(states[i].id) {
        StateIdOfNodeId(states[i].id);
      }
    }
    nodes
  }

  /** Each node carries its state's name, number, class and condition, and
      sits where the layout put its state: the (0, 0) fallback is never used. */
  lemma StatesToNodesContents(states: seq<State>, ts: seq<Transition>, i: nat)
    requires i < |states|
    ensures var n := StatesToNodes(states, ts)[i];
      n.id == NodeId(states[i].id) &&
      n.labelText == states[i].name &&
      n.attributes == Some(NodeAttributes(states[i].name, DecimalString(states[i].id), states[i].vast.vastClass, ConditionOf(states[i]), None)) &&
      !n.selected &&
      states[i].id in Layout(states, ts) &&
      n.position == Layout(states, ts)[states[i].id]
  {
    LayoutCovers(states, ts);
    assert states[i] in states;
  }

  /** States with distinct ids get distinct node ids. */
  lemma StatesToNodesDistinct(states: seq<State>, ts: seq<Transition>)
    requires UniqueIds(states)
    ensures var nodes := StatesToNodes(states, ts);
      forall i, j | 0 <= i < j < |nodes| :: nodes[i].id != nodes[j].id
  {
    var nodes := StatesToNodes(states, ts);
    forall i, j | 0 <= i < j < |nodes| ensures nodes[i].id != nodes[j].id {
      assert StateIdOfNode(nodes[i].id) != StateIdOfNode(nodes[j].id);
    }
  }
}
