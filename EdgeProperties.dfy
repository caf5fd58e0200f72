/** What the edges of a document look like: one edge per plausible
    transition, fixed routes for loops and missing nodes, and how the two
    transitions of a pair are told apart. */
module EdgeProperties {
  import opened Common
  import opened Model
  import opened Handles
  import opened Edges

  /** The edge carries the transition's id, endpoints and data. */
  predicate EdgeMatches(e: Edge, t: Transition)
  {
    e.id == EdgeId(t.id) && e.source == NodeId(t.startId) && e.target == NodeId(t.endId) &&
    e.data.Some? &&
    var d := e.data.value;
    d.transitionId == t.id && d.startStateId == t.startId && d.endStateId == t.endId &&
    d.time25 == t.time25 && d.time100 == t.time100 && d.transitionDelta == t.delta && d.notes == t.notes
  }

  lemma EdgeAtMatches(fs: seq<Transition>, nodes: seq<Node>, i: nat)
    requires i < |fs|
    ensures EdgeMatches(EdgeAt(fs, nodes, i), fs[i])
  {
  }

  /** Every edge comes from a plausible transition of the document (and not
      from a self-transition unless those are included), and every such
      transition has an edge. */
  lemma EdgesMatchTransitions(ts: seq<Transition>, nodes: seq<Node>, includeSelf: bool)
    ensures var edges := EdgesOf(ts, nodes, includeSelf);
      (forall e | e in edges :: exists t | t in ts :: IsShown(t, includeSelf) && EdgeMatches(e, t)) &&
      (forall t | t in ts && IsShown(t, includeSelf) :: exists e | e in edges :: EdgeMatches(e, t))
  {
    var edges := EdgesOf(ts, nodes, includeSelf);
    var fs := Shown(ts, includeSelf);
    forall e | e in edges ensures exists t | t in ts :: IsShown(t, includeSelf) && EdgeMatches(e, t) {
      var i :| 0 <= i < |edges| && edges[i] == e;
      EdgeAtMatches(fs, nodes, i);
      assert fs[i] in fs;
    }
    forall t | t in ts && IsShown(t, includeSelf) ensures exists e | e in edges :: EdgeMatches(e, t) {
      var i :| 0 <= i < |fs| && fs[i] == t;
      EdgeAtMatches(fs, nodes, i);
      assert edges[i] in edges;
    }
  }

  /** The edge of a shown transition. */
  lemma EdgeOfShown(ts: seq<Transition>, nodes: seq<Node>, includeSelf: bool, t: Transition) returns (e: Edge)
    requires t in ts && IsShown(t, includeSelf)
    ensures e in EdgesOf(ts, nodes, includeSelf) && EdgeMatches(e, t)
  {
    var fs := Shown(ts, includeSelf);
    var i :| 0 <= i < |fs| && fs[i] == t;
    EdgeAtMatches(fs, nodes, i);
    e := EdgesOf(ts, nodes, includeSelf)[i];
  }

  /** Without self-transitions, no edge starts and ends at the same node. */
  lemma NoLoopsUnlessIncluded(ts: seq<Transition>, nodes: seq<Node>)
    ensures forall e | e in EdgesOf(ts, nodes, false) :: e.source != e.target
  {
    var edges := EdgesOf(ts, nodes, false);
    var fs := Shown(ts, false);
    forall e | e in edges ensures e.source != e.target {
      var i :| 0 <= i < |edges| && edges[i] == e;
      assert fs[i] in fs;
      if e.source == e.target {
        NodeIdInjective(fs[i].startId, fs[i].endId);
      }
    }
  }

  /** A self-transition always gets the fixed loop route, whatever the
      positions: right-centre to top-centre, curvature 0.7, a loop and not
      bidirectional. */
  lemma LoopRoute(fs: seq<Transition>, nodes: seq<Node>, i: nat)
    requires i < |fs| && fs[i].startId == fs[i].endId
    ensures var e := EdgeAt(fs, nodes, i);
      e.sourceHandle == Some(Handle(Right, Center, Source)) &&
      e.targetHandle == Some(Handle(Top, Center, Target)) &&
      e.data.value.curvature == Some(0.7) &&
      e.data.value.isBidirectional == Some(false) &&
      e.data.value.isLoop == Some(true)
  {
  }

  /** When either node is missing, the edge falls back to right-centre to
      left-centre with curvature 0.25, keeping its bidirectional flag. */
  lemma MissingNodeRoute(fs: seq<Transition>, nodes: seq<Node>, i: nat)
    requires i < |fs| && fs[i].startId != fs[i].endId
    requires (forall n | n in nodes :: n.id != NodeId(fs[i].startId)) ||
             (forall n | n in nodes :: n.id != NodeId(fs[i].endId))
    ensures var e := EdgeAt(fs, nodes, i);
      e.sourceHandle == Some(Handle(Right, Center, Source)) &&
      e.targetHandle == Some(Handle(Left, Center, Target)) &&
      e.data.value.curvature == Some(0.25) &&
      e.data.value.isBidirectional == Some(PairCount(fs, fs[i]) == 2) &&
      e.data.value.isLoop == None
  {
    if FindNode(nodes, NodeId(fs[i].startId)).Some? {
      assert FindNode(nodes, NodeId(fs[i].endId)).None?;
    }
  }

  /** A transition whose pair has any count but two, between two nodes that
      are found, leaves from the side facing the target and enters the side
      facing the source, centred, with curvature 0.25. */
  lemma SingleRoute(fs: seq<Transition>, nodes: seq<Node>, i: nat)
    requires i < |fs| && fs[i].startId != fs[i].endId && PairCount(fs, fs[i]) != 2
    requires FindNode(nodes, NodeId(fs[i].startId)).Some? && FindNode(nodes, NodeId(fs[i].endId)).Some?
    ensures var e := EdgeAt(fs, nodes, i);
      var a := FindNode(nodes, NodeId(fs[i].startId)).value.position;
      var b := FindNode(nodes, NodeId(fs[i].endId)).value.position;
      e.sourceHandle == Some(OptimalHandles(b.x - a.x, b.y - a.y).0) &&
      e.targetHandle.Some? && e.targetHandle.value.side == Opposite(e.sourceHandle.value.side) &&
      e.data.value.curvature == Some(0.25) &&
      e.data.value.isBidirectional == Some(false)
  {
    var t, first := fs[i], FirstDirection(fs, i);
    assert EdgeAt(fs, nodes, i) == EdgeFor(t, nodes, false, first);
    RoutingOptimal(t, nodes, first);
    EdgeForRouted(t, nodes, false, first);
  }

  /** Between two found nodes a transition without a reverse partner takes
      the optimal handles and curvature 0.25. */
  lemma RoutingOptimal(t: Transition, nodes: seq<Node>, first: bool)
    requires FindNode(nodes, NodeId(t.startId)).Some? && FindNode(nodes, NodeId(t.endId)).Some?
    ensures var a := FindNode(nodes, NodeId(t.startId)).value.position;
      var b := FindNode(nodes, NodeId(t.endId)).value.position;
      Routing(t, nodes, false, first) == (OptimalHandles(b.x - a.x, b.y - a.y), 0.25)
  {
    var a := FindNode(nodes, NodeId(t.startId)).value.position;
    var b := FindNode(nodes, NodeId(t.endId)).value.position;
    var h := OptimalHandles(b.x - a.x, b.y - a.y);
    assert Routing(t, nodes, false, first) == (h, 0.25);
  }

  /** A transition whose pair has exactly two transitions, between two nodes
      that are found, takes the pair handles of its offset: centred with
      curvature 0.2 when it is the first of its direction, shifted off centre
      with curvature 0.4 otherwise; it is marked bidirectional. */
  lemma PairRoute(fs: seq<Transition>, nodes: seq<Node>, i: nat)
    requires i < |fs| && fs[i].startId != fs[i].endId && PairCount(fs, fs[i]) == 2
    requires FindNode(nodes, NodeId(fs[i].startId)).Some? && FindNode(nodes, NodeId(fs[i].endId)).Some?
    ensures var e := EdgeAt(fs, nodes, i);
      var a := FindNode(nodes, NodeId(fs[i].startId)).value.position;
      var b := FindNode(nodes, NodeId(fs[i].endId)).value.position;
      var h := BidirectionalHandles(b.x - a.x, b.y - a.y, FirstDirection(fs, i));
      e.sourceHandle == Some(h.0) && e.targetHandle == Some(h.1) &&
      e.data.value.curvature == Some(if FirstDirection(fs, i) then 0.2 else 0.4) &&
      e.data.value.isBidirectional == Some(true)
  {
    var t, first := fs[i], FirstDirection(fs, i);
    assert EdgeAt(fs, nodes, i) == EdgeFor(t, nodes, true, first);
    RoutingPair(t, nodes, first);
    EdgeForRouted(t, nodes, true, first);
  }

  lemma RoutingPair(t: Transition, nodes: seq<Node>, first: bool)
    requires FindNode(nodes, NodeId(t.startId)).Some? && FindNode(nodes, NodeId(t.endId)).Some?
    ensures var a := FindNode(nodes, NodeId(t.startId)).value.position;
      var b := FindNode(nodes, NodeId(t.endId)).value.position;
      Routing(t, nodes, true, first) == (BidirectionalHandles(b.x - a.x, b.y - a.y, first), if first then 0.2 else 0.4)
  {
    var a := FindNode(nodes, NodeId(t.startId)).value.position;
    var b := FindNode(nodes, NodeId(t.endId)).value.position;
    var h := BidirectionalHandles(b.x - a.x, b.y - a.y, first);
    var c := if first then 0.2 else 0.4;
    assert Routing(t, nodes, true, first) == (h, c);
  }

  /** The edge between two distinct states carries the routed handles and
      curvature. */
  lemma EdgeForRouted(t: Transition, nodes: seq<Node>, bidirectional: bool, first: bool)
    requires t.startId != t.endId
    ensures var e := EdgeFor(t, nodes, bidirectional, first);
      var r := Routing(t, nodes, bidirectional, first);
      e.sourceHandle == Some(r.0.0) && e.targetHandle == Some(r.0.1) &&
      e.data.Some? && e.data.value.curvature == Some(r.1) && e.data.value.isBidirectional == Some(bidirectional)
  {
  }

  // ---------------------------------------------------------------------------
  // Pairs of transitions

  lemma MembersNonEmpty<T(!new), K>(s: seq<T>, key: T -> K, k: K, i: nat)
    requires i < |s| && key(s[i]) == k
    ensures |Members(s, key, k)| >= 1
  {
    MembersIn(s, key, k, s[i]);
  }

  /** Three elements with the same key make a group of at least three. */
  lemma MembersThree<T(!new), K>(s: seq<T>, key: T -> K, k: K, a: nat, b: nat, c: nat)
    requires a < b < c < |s| && key(s[a]) == k && key(s[b]) == k && key(s[c]) == k
    ensures |Members(s, key, k)| >= 3
  {
    var left, mid, right := s[..b], s[b..b + 1], s[b + 1..];
    assert s == left + mid + right;
    MembersAppend(left + mid, right, key, k);
    MembersAppend(left, mid, key, k);
    MembersNonEmpty(left, key, k, a);
    MembersNonEmpty(mid, key, k, 0);
    MembersNonEmpty(right, key, k, c - b - 1);
  }

  /** A second transition in the same direction is not a first direction. */
  lemma RepeatNotFirst(fs: seq<Transition>, i: nat, j: nat)
    requires i < j < |fs| && DirectionOf(fs[i]) == DirectionOf(fs[j])
    ensures !FirstDirection(fs, j)
  {
    assert MapSeq(fs[..j], DirectionOf)[i] == DirectionOf(fs[j]);
  }

  /** Within a pair of exactly two transitions, a transition in the opposite
      direction to the other one is always a first direction. */
  lemma OppositeIsFirst(fs: seq<Transition>, i: nat, j: nat)
    requires i < |fs| && j < |fs| && i != j && fs[i].startId != fs[i].endId
    requires DirectionOf(fs[j]) == (fs[i].endId, fs[i].startId)
    requires PairCount(fs, fs[i]) == 2
    ensures FirstDirection(fs, j)
  {
    var p := PairOf(fs[i]);
    var m := MapSeq(fs[..j], DirectionOf);
    forall k | 0 <= k < j ensures m[k] != DirectionOf(fs[j]) {
      if m[k] == DirectionOf(fs[j]) {
        assert PairOf(fs[k]) == p && PairOf(fs[j]) == p && k != i;
        if k < i {
          if i < j { MembersThree(fs, PairOf, p, k, i, j); } else { MembersThree(fs, PairOf, p, k, j, i); }
        } else {
          MembersThree(fs, PairOf, p, i, k, j);
        }
        assert false;
      }
    }
  }

  /** As written, the two opposite transitions of a pair are both first
      directions: they get the centre handles of the dominant axis, the
      second edge entering exactly where the first one leaves, and both
      curve by 0.2. */
  lemma ReversePairBothFirst(fs: seq<Transition>, nodes: seq<Node>, i: nat, j: nat)
    requires i < j < |fs| && fs[i].startId != fs[i].endId
    requires DirectionOf(fs[j]) == (fs[i].endId, fs[i].startId)
    requires PairCount(fs, fs[i]) == 2
    requires FindNode(nodes, NodeId(fs[i].startId)).Some? && FindNode(nodes, NodeId(fs[i].endId)).Some?
    ensures FirstDirection(fs, i) && FirstDirection(fs, j)
    ensures var a := FindNode(nodes, NodeId(fs[i].startId)).value.position;
      var b := FindNode(nodes, NodeId(fs[i].endId)).value.position;
      (a.x != b.x || a.y != b.y) ==>
        EdgeAt(fs, nodes, j).targetHandle.value.side == EdgeAt(fs, nodes, i).sourceHandle.value.side &&
        EdgeAt(fs, nodes, j).targetHandle.value.offset == EdgeAt(fs, nodes, i).sourceHandle.value.offset
    ensures EdgeAt(fs, nodes, i).data.value.curvature == Some(0.2)
    ensures EdgeAt(fs, nodes, j).data.value.curvature == Some(0.2)
  {
    OppositeIsFirst(fs, j, i);
    OppositeIsFirst(fs, i, j);
    assert PairOf(fs[j]) == PairOf(fs[i]);
  }

  /** The direction test evidently intended: the first transition of its
      unordered pair, so that the opposite transition is the second one. */
  predicate IntendedFirst(fs: seq<Transition>, i: nat)
    requires i < |fs|
  {
    PairOf(fs[i]) !in MapSeq(fs[..i], PairOf)
  }

  function IntendedEdgeAt(fs: seq<Transition>, nodes: seq<Node>, i: nat): Edge
    requires i < |fs|
  {
    EdgeFor(fs[i], nodes, PairCount(fs, fs[i]) == 2, IntendedFirst(fs, i))
  }

  /** With the intended test the earlier transition of a pair is first
      (centred, 0.2) and the later one second (offset, 0.4), and the two
      edges never attach at the same point of either node. */
  lemma IntendedReverseSeparate(fs: seq<Transition>, nodes: seq<Node>, i: nat, j: nat)
    requires i < j < |fs| && fs[i].startId != fs[i].endId
    requires DirectionOf(fs[j]) == (fs[i].endId, fs[i].startId)
    requires PairCount(fs, fs[i]) == 2
    requires FindNode(nodes, NodeId(fs[i].startId)).Some? && FindNode(nodes, NodeId(fs[i].endId)).Some?
    ensures var a := FindNode(nodes, NodeId(fs[i].startId)).value.position;
      var b := FindNode(nodes, NodeId(fs[i].endId)).value.position;
      var ei := IntendedEdgeAt(fs, nodes, i);
      var ej := IntendedEdgeAt(fs, nodes, j);
      ei.data.value.curvature == Some(0.2) && ej.data.value.curvature == Some(0.4) &&
      ((a.x != b.x || a.y != b.y) ==>
        ej.targetHandle.value.side == ei.sourceHandle.value.side &&
        ej.targetHandle.value.offset != ei.sourceHandle.value.offset &&
        ej.sourceHandle.value.side == ei.targetHandle.value.side &&
        ej.sourceHandle.value.offset != ei.targetHandle.value.offset)
  {
    var p := PairOf(fs[i]);
    assert PairOf(fs[j]) == p;
    assert MapSeq(fs[..j], PairOf)[i] == p;
    var m := MapSeq(fs[..i], PairOf);
    forall k | 0 <= k < i ensures m[k] != p {
      if m[k] == p {
        MembersThree(fs, PairOf, p, k, i, j);
        assert false;
      }
    }
    var a := FindNode(nodes, NodeId(fs[i].startId)).value.position;
    var b := FindNode(nodes, NodeId(fs[i].endId)).value.position;
    if a.x != b.x || a.y != b.y {
      ReverseSecondSeparate(b.x - a.x, b.y - a.y);
      assert -(b.x - a.x) == a.x - b.x && -(b.y - a.y) == a.y - b.y;
    }
  }
}
