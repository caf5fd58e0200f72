/** Replacing a transition of a loaded document by an edited copy. */
module DataLoader {
  import opened Common
  import opened Model

  function TransitionIds(ts: seq<Transition>): seq<int>
  {
    MapSeq(ts, (t: Transition) => t.id)
  }

  /** `updateTransition`: every transition with the update's id is replaced
      by the update; everything else in the document is kept. */
  function UpdateTransition(doc: Document, u: Transition): (r: Document)
    ensures r.stmName == doc.stmName && r.meta == doc.meta && r.states == doc.states
    ensures |r.transitions| == |doc.transitions|
    ensures forall i | 0 <= i < |doc.transitions| ::
      (doc.transitions[i].id == u.id ==> r.transitions[i] == u) &&
      (doc.transitions[i].id != u.id ==> r.transitions[i] == doc.transitions[i])
  {
    doc.(transitions := seq(|doc.transitions|, i requires 0 <= i < |doc.transitions| =>
      if doc.transitions[i].id == u.id then u else doc.transitions[i]))
  }

  /** An update whose id matches no transition changes nothing: it never
      inserts. */
  lemma UpdateAbsent(doc: Document, u: Transition)
    requires u.id !in TransitionIds(doc.transitions)
    ensures UpdateTransition(doc, u) == doc
  {
    var r := UpdateTransition(doc, u);
    forall i | 0 <= i < |doc.transitions| ensures r.transitions[i] == doc.transitions[i] {
      assert TransitionIds(doc.transitions)[i] == doc.transitions[i].id;
    }
  }

  /** The list of transition ids is the same before and after. */
  lemma UpdateKeepsIds(doc: Document, u: Transition)
    ensures TransitionIds(UpdateTransition(doc, u).transitions) == TransitionIds(doc.transitions)
  {
  }

  /** Applying the same update twice is the same as applying it once. */
  lemma UpdateIdempotent(doc: Document, u: Transition)
    ensures UpdateTransition(UpdateTransition(doc, u), u) == UpdateTransition(doc, u)
  {
  }

  /** Of two updates of the same transition, the later one wins. */
  lemma UpdateLastWins(doc: Document, u: Transition, v: Transition)
    requires u.id == v.id
    ensures UpdateTransition(UpdateTransition(doc, u), v) == UpdateTransition(doc, v)
  {
  }
}
