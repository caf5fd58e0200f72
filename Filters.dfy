/** The editor's view filters: which transitions are offered to the edge
    router, which of the routed edges are kept by the delta filter, and how
    a refresh composes them. */
module Filters {
  import opened Common
  import opened Model
  import opened Edges
  import opened EdgeProperties

  /** `t.notes && t.notes.trim().length > 0`. */
  predicate HasNotes(t: Transition)
  {
    t.notes != [] && Trim(t.notes) != []
  }

  lemma HasNotesIffNotBlank(t: Transition)
    ensures HasNotes(t) <==> !Blank(t.notes)
  {
    TrimEmptyIffBlank(t.notes);
  }

  predicate PassesFlags(t: Transition, plausibleOnly: bool, hasNotesOnly: bool)
  {
    (!plausibleOnly || t.time25 == 1.0) && (!hasNotesOnly || HasNotes(t))
  }

  /** `filterTransitions`: the transitions that pass the plausible-only and
      has-notes toggles, in document order. */
  function FilterTransitions(all: seq<Transition>, plausibleOnly: bool, hasNotesOnly: bool): (r: seq<Transition>)
    ensures forall t :: t in r <==>
      t in all && (!plausibleOnly || t.time25 == 1.0) && (!hasNotesOnly || !Blank(t.notes))
  {
    var r := Filter(all, (t: Transition) => PassesFlags(t, plausibleOnly, hasNotesOnly));
    assert forall t | t in all :: HasNotes(t) <==> !Blank(t.notes) by {
      forall t | t in all ensures HasNotes(t) <==> !Blank(t.notes) { HasNotesIffNotBlank(t); }
    }
    r
  }

  /** Filtering keeps the relative order: it distributes over concatenation. */
  lemma FilterTransitionsOrder(a: seq<Transition>, b: seq<Transition>, plausibleOnly: bool, hasNotesOnly: bool)
    ensures FilterTransitions(a + b, plausibleOnly, hasNotesOnly) ==
            FilterTransitions(a, plausibleOnly, hasNotesOnly) + FilterTransitions(b, plausibleOnly, hasNotesOnly)
  {
    FilterAppend(a, b, (t: Transition) => PassesFlags(t, plausibleOnly, hasNotesOnly));
  }

  datatype DeltaFilter = All | Positive | Neutral | Negative

  /** `(edge.data?.transitionDelta as number) || 0`: a missing or NaN delta
      reads as 0. */
  function EffectiveDelta(e: Edge): real
  {
    if e.data.Some? then OrDefault(e.data.value.transitionDelta, 0.0) else 0.0
  }

  predicate Keeps(f: DeltaFilter, d: real)
  {
    match f
    case All => true
    case Positive => d > 0.0
    case Neutral => d == 0.0
    case Negative => d < 0.0
  }

  /** `filterEdgesByDelta`. */
  function FilterEdgesByDelta(eds: seq<Edge>, f: DeltaFilter): (r: seq<Edge>)
    ensures f == All ==> r == eds
    ensures forall e :: e in r <==> e in eds && Keeps(f, EffectiveDelta(e))
  {
    if f == All then eds else Filter(eds, (e: Edge) => Keeps(f, EffectiveDelta(e)))
  }

  /** An edge without data or with a NaN delta is neutral. */
  lemma UnknownDeltaIsNeutral(e: Edge)
    requires e.data.None? || e.data.value.transitionDelta == NaN
    ensures e in FilterEdgesByDelta([e], Neutral)
    ensures e !in FilterEdgesByDelta([e], Positive) && e !in FilterEdgesByDelta([e], Negative)
  {
  }

  /** The three sign filters split the edges: every edge is kept by exactly
      one of them. */
  lemma {:induction false} SignFiltersPartition(eds: seq<Edge>)
    ensures |FilterEdgesByDelta(eds, Positive)| + |FilterEdgesByDelta(eds, Neutral)| +
            |FilterEdgesByDelta(eds, Negative)| == |eds|
  {
    if eds != [] {
      SignFiltersPartition(eds[1..]);
    }
  }

  /** `refreshEdges`: the toggles, then the edge router, then the delta
      filter (not applied for "all"). */
  function RefreshedEdges(ts: seq<Transition>, nodes: seq<Node>, showSelf: bool,
                          plausibleOnly: bool, hasNotesOnly: bool, f: DeltaFilter): seq<Edge>
  {
    var trans := FilterTransitions(ts, plausibleOnly, hasNotesOnly);
    var edges0 := EdgesOf(trans, nodes, showSelf);
    if f == All then edges0 else FilterEdgesByDelta(edges0, f)
  }

  /** Every edge on the canvas after a refresh comes from a plausible
      transition of the document that passes the toggles and the delta
      filter, even with the plausible-only toggle off. */
  lemma RefreshShowsOnlyPlausible(ts: seq<Transition>, nodes: seq<Node>, showSelf: bool,
                                  plausibleOnly: bool, hasNotesOnly: bool, f: DeltaFilter)
    ensures forall e | e in RefreshedEdges(ts, nodes, showSelf, plausibleOnly, hasNotesOnly, f) ::
      exists t | t in ts :: EdgeMatches(e, t) && Plausible(t) && (showSelf || t.startId != t.endId) &&
        (!hasNotesOnly || !Blank(t.notes)) && Keeps(f, EffectiveDelta(e))
  {
    var trans := FilterTransitions(ts, plausibleOnly, hasNotesOnly);
    EdgesMatchTransitions(trans, nodes, showSelf);
  }

  /** Conversely, every plausible transition that passes the toggles and
      whose delta the filter keeps is on the canvas after a refresh. */
  lemma RefreshShowsAllPassing(ts: seq<Transition>, nodes: seq<Node>, showSelf: bool,
                               plausibleOnly: bool, hasNotesOnly: bool, f: DeltaFilter, t: Transition)
    requires t in ts && Plausible(t) && (showSelf || t.startId != t.endId) && (!hasNotesOnly || !Blank(t.notes))
    requires Keeps(f, OrDefault(t.delta, 0.0))
    ensures exists e | e in RefreshedEdges(ts, nodes, showSelf, plausibleOnly, hasNotesOnly, f) :: EdgeMatches(e, t)
  {
    var trans := FilterTransitions(ts, plausibleOnly, hasNotesOnly);
    assert t in trans;
    assert IsShown(t, showSelf);
    var edges0 := EdgesOf(trans, nodes, showSelf);
    var e := EdgeOfShown(trans, nodes, showSelf, t);
    assert EffectiveDelta(e) == OrDefault(t.delta, 0.0);
    assert e in FilterEdgesByDelta(edges0, f);
    assert RefreshedEdges(ts, nodes, showSelf, plausibleOnly, hasNotesOnly, f) == FilterEdgesByDelta(edges0, f);
  }

  /** The id-to-name table: `reduce` over the states, so a later state with
      the same id overwrites an earlier one. */
  function StateNameMap(states: seq<State>): (m: map<int, string>)
    ensures forall s | s in states :: s.id in m
    ensures forall id | id in m :: exists s | s in states :: s.id == id && s.name == m[id]
  {
    if states == [] then map[]
    else
      var last := states[|states| - 1];
      var m := StateNameMap(states[..|states| - 1])[last.id := last.name];
      assert forall s | s in states :: s == last || s in states[..|states| - 1];
      m
  }

  /** The name recorded for an id is that of the last state with the id. */
  lemma {:induction false} StateNameMapLast(states: seq<State>, i: nat)
    requires i < |states|
    requires forall j | i < j < |states| :: states[j].id != states[i].id
    ensures StateNameMap(states)[states[i].id] == states[i].name
  {
    if i < |states| - 1 {
      StateNameMapLast(states[..|states| - 1], i);
    }
  }
}
