/** Turning the plausible transitions of a document into canvas edges: which
    transitions are drawn, which handles each edge uses and how much it
    curves. */
module Edges {
  import opened Common
  import opened Model
  import opened Handles

  /** A transition is drawn only when it is plausible within 25 years. */
  predicate Plausible(t: Transition)
  {
    t.time25 == 1.0
  }

  predicate IsShown(t: Transition, includeSelf: bool)
  {
    Plausible(t) && (includeSelf || t.startId != t.endId)
  }

  /** The transitions that get an edge, in document order. */
  function Shown(ts: seq<Transition>, includeSelf: bool): (fs: seq<Transition>)
    ensures forall t :: t in fs <==> t in ts && IsShown(t, includeSelf)
  {
    Filter(ts, (t: Transition) => IsShown(t, includeSelf))
  }

  /** The unordered pair of states a transition connects, smaller id first. */
  function PairOf(t: Transition): (int, int)
  {
    if t.startId <= t.endId then (t.startId, t.endId) else (t.endId, t.startId)
  }

  function DirectionOf(t: Transition): (int, int)
  {
    (t.startId, t.endId)
  }

  /** The map key `${a}-${b}` of a pair of state ids. */
  function PairKey(p: (int, int)): string
  {
    DecimalString(p.0) + "-" + DecimalString(p.1)
  }

  /** Distinct pairs have distinct keys, negative ids included, so keying the
      maps by text loses nothing. */
  lemma PairKeyInjective(p: (int, int), q: (int, int))
    requires PairKey(p) == PairKey(q)
    ensures p == q
  {
    PairKeyFirst(p);
    PairKeyFirst(q);
    PairKeySecond(p);
    PairKeySecond(q);
    DecimalStringInjective(p.1, q.1);
  }

  lemma PairKeyFirst(p: (int, int))
    ensures ParseInt(PairKey(p)) == Some(p.0)
  {
    var head, tail := DecimalString(p.0), "-" + DecimalString(p.1);
    assert tail[0] == '-';
    assert PairKey(p) == head + tail by {
      ConcatAssoc(head, "-", DecimalString(p.1));
    }
    ParseIntDecimalPrefix(p.0, tail);
  }

  lemma PairKeySecond(p: (int, int))
    ensures PairKey(p)[|DecimalString(p.0)| + 1..] == DecimalString(p.1)
  {
  }

  /** How many shown transitions connect the same two states as `t`, in
      either direction. */
  function PairCount(fs: seq<Transition>, t: Transition): nat
  {
    |Members(fs, PairOf, PairOf(t))|
  }

  /** No earlier shown transition has the same start and end as the i-th. */
  predicate FirstDirection(fs: seq<Transition>, i: nat)
    requires i < |fs|
  {
    DirectionOf(fs[i]) !in MapSeq(fs[..i], DirectionOf)
  }

  /** `nodes.find`: the first node with the given id. */
  function FindNode(nodes: seq<Node>, id: string): (r: Option<Node>)
    ensures r.Some? ==> r.value in nodes && r.value.id == id
    ensures r.None? ==> forall n | n in nodes :: n.id != id
  {
    if nodes == [] then None
    else if nodes[0].id == id then Some(nodes[0])
    else FindNode(nodes[1..], id)
  }

  function DataOf(t: Transition, curvature: real, bidirectional: bool, isLoop: Option<bool>): EdgeData
  {
    EdgeData(t.id, t.startId, t.endId, t.time25, t.time100, t.delta, t.notes,
             Some(curvature), Some(bidirectional), isLoop)
  }

  const DefaultHandles := (Handle(Right, Center, Source), Handle(Left, Center, Target))

  /** The handles and curvature of a transition between two distinct
      states: defaults (right to left, 0.25) unless both nodes are found;
      then pair handles and curvature 0.2 or 0.4 for a pair of two
      transitions, the facing sides and 0.25 otherwise. */
  function Routing(t: Transition, nodes: seq<Node>, bidirectional: bool, first: bool): ((Handle, Handle), real)
  {
    var source := FindNode(nodes, NodeId(t.startId));
    var target := FindNode(nodes, NodeId(t.endId));
    if source.Some? && target.Some? then
      var dx := target.value.position.x - source.value.position.x;
      var dy := target.value.position.y - source.value.position.y;
      if bidirectional then (BidirectionalHandles(dx, dy, first), if first then 0.2 else 0.4)
      else (OptimalHandles(dx, dy), 0.25)
    else (DefaultHandles, 0.25)
  }

  /** The edge of one shown transition. */
  function EdgeFor(t: Transition, nodes: seq<Node>, bidirectional: bool, first: bool): (e: Edge)
    ensures e.id == EdgeId(t.id) && e.source == NodeId(t.startId) && e.target == NodeId(t.endId)
    ensures e.data.Some? && e.data.value.transitionId == t.id
  {
    if t.startId == t.endId then
      Edge(EdgeId(t.id), NodeId(t.startId), NodeId(t.endId),
           Some(Handle(Right, Center, Source)), Some(Handle(Top, Center, Target)),
           Some(DataOf(t, 0.7, false, Some(true))))
    else
      var (handles, curvature) := Routing(t, nodes, bidirectional, first);
      Edge(EdgeId(t.id), NodeId(t.startId), NodeId(t.endId),
           Some(handles.0), Some(handles.1),
           Some(DataOf(t, curvature, bidirectional, None)))
  }

  /** The edges of a document, one per shown transition, in order. */
  function EdgesOf(ts: seq<Transition>, nodes: seq<Node>, includeSelf: bool): (edges: seq<Edge>)
    ensures |edges| == |Shown(ts, includeSelf)|
  {
    var fs := Shown(ts, includeSelf);
    seq(|fs|, i requires 0 <= i < |fs| => EdgeAt(fs, nodes, i))
  }

  /** The edge of the i-th shown transition. */
  function EdgeAt(fs: seq<Transition>, nodes: seq<Node>, i: nat): Edge
    requires i < |fs|
  {
    EdgeFor(fs[i], nodes, PairCount(fs, fs[i]) == 2, FirstDirection(fs, i))
  }

  /** `transitionsToEdges`: counts the transitions of each pair of states in
      a first pass, then builds the edges, remembering which directions have
      been seen. */
  method TransitionsToEdges(transitions: seq<Transition>, nodes: seq<Node>, includeSelf: bool) returns (edges: seq<Edge>)
    ensures edges == EdgesOf(transitions, nodes, includeSelf)
  {
    var filtered := Shown(transitions, includeSelf);
    var connectionPairs := CountPairs(filtered);
    var processedConnections: map<string, bool> := map[];
    edges := [];
    var j := 0;
    while j < |filtered|
      invariant 0 <= j <= |filtered| && |edges| == j
      invariant forall k | 0 <= k < j :: edges[k] == EdgeAt(filtered, nodes, k)
      invariant forall p: (int, int) | p.0 != p.1 :: PairKey(p) in processedConnections <==> p in MapSeq(filtered[..j], DirectionOf)
    {
      var edge;
      edge, processedConnections := EdgeOfTransition(filtered, j, nodes, connectionPairs, processedConnections);
      ghost var before := edges;
      edges := edges + [edge];
      forall k | 0 <= k < j + 1 ensures edges[k] == EdgeAt(filtered, nodes, k) {
        if k < j { assert edges[k] == before[k]; }
      }
      j := j + 1;
    }
  }

  /** The callback of the second pass: the edge of the j-th shown transition,
      and the directions seen once it is processed. */
  method EdgeOfTransition(filtered: seq<Transition>, j: nat, nodes: seq<Node>,
                          connectionPairs: map<string, nat>, processedConnections: map<string, bool>)
    returns (edge: Edge, processed: map<string, bool>)
    requires j < |filtered|
    requires forall p :: PairKey(p) in connectionPairs <==> p in MapSeq(filtered, PairOf)
    requires forall p | PairKey(p) in connectionPairs :: connectionPairs[PairKey(p)] == |Members(filtered, PairOf, p)|
    requires forall p: (int, int) | p.0 != p.1 :: PairKey(p) in processedConnections <==> p in MapSeq(filtered[..j], DirectionOf)
    ensures edge == EdgeAt(filtered, nodes, j)
    ensures forall p: (int, int) | p.0 != p.1 :: PairKey(p) in processed <==> p in MapSeq(filtered[..j + 1], DirectionOf)
  {
    var t := filtered[j];
    var pairKey := PairKey(PairOf(t));
    var isBidirectional := pairKey in connectionPairs && connectionPairs[pairKey] == 2;
    assert PairOf(t) in MapSeq(filtered, PairOf);
    assert isBidirectional == (PairCount(filtered, t) == 2);
    processed := processedConnections;
    if t.startId == t.endId {
      edge := Edge(EdgeId(t.id), NodeId(t.startId), NodeId(t.endId),
                   Some(Handle(Right, Center, Source)), Some(Handle(Top, Center, Target)),
                   Some(DataOf(t, 0.7, false, Some(true))));
    } else {
      var directionKey := PairKey(DirectionOf(t));
      var isFirstDirection := directionKey !in processed;
      assert isFirstDirection == FirstDirection(filtered, j);
      if isFirstDirection {
        processed := processed[directionKey := true];
      }
      edge := RouteEdge(t, nodes, isBidirectional, isFirstDirection);
    }
    SeenStep(filtered, j, processedConnections, processed);
  }

  /** The first pass: the number of transitions between each pair of states,
      keyed by `PairKey`. */
  method CountPairs(filtered: seq<Transition>) returns (connectionPairs: map<string, nat>)
    ensures forall p :: PairKey(p) in connectionPairs <==> p in MapSeq(filtered, PairOf)
    ensures forall p | PairKey(p) in connectionPairs :: connectionPairs[PairKey(p)] == |Members(filtered, PairOf, p)|
  {
    connectionPairs := map[];
    var i := 0;
    while i < |filtered|
      invariant 0 <= i <= |filtered|
      invariant Counts(filtered[..i], connectionPairs)
    {
      connectionPairs := CountNext(filtered, i, connectionPairs);
      i := i + 1;
    }
    assert filtered[..i] == filtered;
  }

  /** One step of the count: the pair of the i-th transition gains one. */
  method CountNext(filtered: seq<Transition>, i: nat, pairs0: map<string, nat>) returns (pairs: map<string, nat>)
    requires i < |filtered| && Counts(filtered[..i], pairs0)
    ensures Counts(filtered[..i + 1], pairs)
  {
    var t := filtered[i];
    var key := PairKey(PairOf(t));
    pairs := pairs0[key := (if key in pairs0 then pairs0[key] else 0) + 1];
    CountStep(filtered, i, pairs0, pairs);
  }

  /** `pairs` holds, under the key of each pair of states that the
      transitions connect, how many of them connect it. */
  ghost predicate Counts(fs: seq<Transition>, pairs: map<string, nat>)
  {
    (forall p :: PairKey(p) in pairs <==> p in MapSeq(fs, PairOf)) &&
    (forall p | PairKey(p) in pairs :: pairs[PairKey(p)] == |Members(fs, PairOf, p)|)
  }

  /** The handles and curvature of the edge of a transition between two
      distinct states. */
  method RouteEdge(t: Transition, nodes: seq<Node>, isBidirectional: bool, isFirstDirection: bool) returns (edge: Edge)
    requires t.startId != t.endId
    ensures edge == EdgeFor(t, nodes, isBidirectional, isFirstDirection)
  {
    var sourceNode := FindNode(nodes, NodeId(t.startId));
    var targetNode := FindNode(nodes, NodeId(t.endId));
    var handles := DefaultHandles;
    var curvature := 0.25;
    if sourceNode.Some? && targetNode.Some? {
      var dx := targetNode.value.position.x - sourceNode.value.position.x;
      var dy := targetNode.value.position.y - sourceNode.value.position.y;
      if isBidirectional {
        handles := BidirectionalHandles(dx, dy, isFirstDirection);
        curvature := if isFirstDirection then 0.2 else 0.4;
      } else {
        handles := OptimalHandles(dx, dy);
      }
    }
    edge := Edge(EdgeId(t.id), NodeId(t.startId), NodeId(t.endId),
                 Some(handles.0), Some(handles.1),
                 Some(DataOf(t, curvature, isBidirectional, None)));
  }

  /** One step of the counting pass keeps the counts equal to the number of
      transitions of each pair seen so far. */
  lemma CountStep(fs: seq<Transition>, i: nat, before: map<string, nat>, after: map<string, nat>)
    requires i < |fs|
    requires Counts(fs[..i], before)
    requires var key := PairKey(PairOf(fs[i]));
      after == before[key := (if key in before then before[key] else 0) + 1]
    ensures Counts(fs[..i + 1], after)
  {
    var t := fs[i];
    assert fs[..i + 1] == fs[..i] + [t];
    assert MapSeq(fs[..i + 1], PairOf) == MapSeq(fs[..i], PairOf) + [PairOf(t)];
    forall p ensures PairKey(p) in after <==> p in MapSeq(fs[..i + 1], PairOf) {
      if PairKey(p) == PairKey(PairOf(t)) { PairKeyInjective(p, PairOf(t)); }
    }
    forall p | PairKey(p) in after ensures after[PairKey(p)] == |Members(fs[..i + 1], PairOf, p)| {
      MembersSnoc(fs[..i], t, PairOf, p);
      if PairKey(p) == PairKey(PairOf(t)) {
        PairKeyInjective(p, PairOf(t));
        if PairKey(p) !in before {
          MembersAbsent(fs[..i], PairOf, p);
        }
      } else {
        assert p != PairOf(t);
      }
    }
  }

  /** One step of the edge pass keeps the remembered directions equal to
      the directions of the non-loop transitions seen so far. */
  lemma SeenStep(fs: seq<Transition>, j: nat, before: map<string, bool>, after: map<string, bool>)
    requires j < |fs|
    requires forall p: (int, int) | p.0 != p.1 :: PairKey(p) in before <==> p in MapSeq(fs[..j], DirectionOf)
    requires var t := fs[j];
      if t.startId == t.endId then after == before
      else
        var key := PairKey(DirectionOf(t));
        after == if key !in before then before[key := true] else before
    ensures forall p: (int, int) | p.0 != p.1 :: PairKey(p) in after <==> p in MapSeq(fs[..j + 1], DirectionOf)
  {
    var t := fs[j];
    assert fs[..j + 1] == fs[..j] + [t];
    assert MapSeq(fs[..j + 1], DirectionOf) == MapSeq(fs[..j], DirectionOf) + [DirectionOf(t)];
    forall p: (int, int) | p.0 != p.1 ensures PairKey(p) in after <==> p in MapSeq(fs[..j + 1], DirectionOf) {
      if PairKey(p) == PairKey(DirectionOf(t)) { PairKeyInjective(p, DirectionOf(t)); }
    }
  }
}
