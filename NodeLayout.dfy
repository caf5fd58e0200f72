/** The swimlane layout that places one node per state: one column per VAST
    class, ranked Class I..VI; pinned rows for the Reference, Removed and
    Cropping states; the other states stacked by how connected they are. */
module NodeLayout {
  import opened Common
  import opened Model

  const ViewportWidth: real := 1400.0
  const LeftMargin: real := 100.0
  const RightMargin: real := 100.0
  const UsableWidth: real := ViewportWidth - LeftMargin - RightMargin
  const StartY: real := 150.0
  const VerticalSpacing: real := 120.0
  const ReferenceY: real := 50.0
  const RemovedY: real := 600.0
  const CroppingY: real := 500.0

  const ClassNames: seq<string> := ["Class I", "Class II", "Class III", "Class IV", "Class V", "Class VI"]

  /** The rank of a VAST class: 1..6 for "Class I".."Class VI", 0 otherwise. */
  function VastClassNumber(c: string): (n: nat)
    ensures n <= |ClassNames|
    ensures n == 0 <==> c !in ClassNames
    ensures n > 0 ==> ClassNames[n - 1] == c
  {
    if c == "Class I" then 1
    else if c == "Class II" then 2
    else if c == "Class III" then 3
    else if c == "Class IV" then 4
    else if c == "Class V" then 5
    else if c == "Class VI" then 6
    else 0
  }

  function ClassOf(s: State): string { s.vast.vastClass }

  function ClassRank(c: string): real { VastClassNumber(c) as real }

  /** The lanes: the distinct classes in order of first appearance, stably
      sorted by rank. */
  function SortedClasses(states: seq<State>): seq<string>
  {
    SortBy(Distinct(MapSeq(states, ClassOf)), ClassRank)
  }

  // ---------------------------------------------------------------------------
  // Connection weights

  datatype Weight = Weight(inbound: nat, outbound: nat, total: nat)

  const NoWeight := Weight(0, 0, 0)

  /** Only plausible transitions between two different states add weight. */
  predicate Counted(t: Transition)
  {
    t.time25 == 1.0 && t.startId != t.endId
  }

  /** `weights.get(id) || { inbound: 0, outbound: 0, total: 0 }` */
  function Lookup(w: map<int, Weight>, id: int): Weight
  {
    if id in w then w[id] else NoWeight
  }

  function InitialWeights(states: seq<State>): map<int, Weight>
  {
    if states == [] then map[]
    else InitialWeights(states[..|states| - 1])[states[|states| - 1].id := NoWeight]
  }

  function AddWeight(w: map<int, Weight>, t: Transition): map<int, Weight>
  {
    if !Counted(t) then w
    else
      var sw := Lookup(w, t.startId);
      var ew := Lookup(w, t.endId);
      w[t.startId := Weight(sw.inbound, sw.outbound + 1, sw.total + 1)]
       [t.endId := Weight(ew.inbound + 1, ew.outbound, ew.total + 1)]
  }

  /** The weight map after the initialisation pass and the transition pass. */
  function Weights(states: seq<State>, ts: seq<Transition>): map<int, Weight>
  {
    if ts == [] then InitialWeights(states)
    else AddWeight(Weights(states, ts[..|ts| - 1]), ts[|ts| - 1])
  }

  method ComputeWeights(states: seq<State>, ts: seq<Transition>) returns (w: map<int, Weight>)
    ensures w == Weights(states, ts)
  {
    w := map[];
    for i := 0 to |states|
      invariant w == InitialWeights(states[..i])
    {
      assert states[..i + 1][..i] == states[..i];
      w := w[states[i].id := NoWeight];
    }
    assert states[..|states|] == states;
    for j := 0 to |ts|
      invariant w == Weights(states, ts[..j])
    {
      assert ts[..j + 1][..j] == ts[..j];
      var t := ts[j];
      if t.time25 == 1.0 && t.startId != t.endId {
        var sw := Lookup(w, t.startId);
        var ew := Lookup(w, t.endId);
        w := w[t.startId := Weight(sw.inbound, sw.outbound + 1, sw.total + 1)];
        w := w[t.endId := Weight(ew.inbound + 1, ew.outbound, ew.total + 1)];
      }
    }
    assert ts[..|ts|] == ts;
  }

  /** Number of counted transitions out of / into `id`. */
  function Outbound(ts: seq<Transition>, id: int): nat
  {
    if ts == [] then 0
    else Outbound(ts[..|ts| - 1], id) + (if Counted(ts[|ts| - 1]) && ts[|ts| - 1].startId == id then 1 else 0)
  }

  function Inbound(ts: seq<Transition>, id: int): nat
  {
    if ts == [] then 0
    else Inbound(ts[..|ts| - 1], id) + (if Counted(ts[|ts| - 1]) && ts[|ts| - 1].endId == id then 1 else 0)
  }

  function CountedCount(ts: seq<Transition>): nat
  {
    if ts == [] then 0 else CountedCount(ts[..|ts| - 1]) + (if Counted(ts[|ts| - 1]) then 1 else 0)
  }

  /** The sort key of a state: most connected first. */
  function ByWeight(w: map<int, Weight>): State -> real
  {
    (s: State) => -(Lookup(w, s.id).total as real)
  }

  // ---------------------------------------------------------------------------
  // Placement

  /** The states of one lane, most connected first, ties in input order. */
  function Lane(states: seq<State>, w: map<int, Weight>, c: string): seq<State>
  {
    SortBy(Members(states, ClassOf, c), ByWeight(w))
  }

  /** The horizontal distance between two of `n` lanes. */
  function LaneSpacing(n: nat): real
    requires n > 0
  {
    UsableWidth / n as real
  }

  /** The x coordinate of lane `i` out of `n`. */
  function LaneX(i: nat, n: nat): real
    requires n > 0
  {
    LeftMargin + (i as real) * LaneSpacing(n)
  }

  datatype Pin = Reference | Removed | Cropping

  predicate Matches(p: Pin, s: State)
  {
    match p
    case Reference => s.name == "Reference"
    case Removed => s.name == "Removed"
    case Cropping => Contains(s.name, "Cropping")
  }

  function PinY(p: Pin): real
  {
    match p
    case Reference => ReferenceY
    case Removed => RemovedY
    case Cropping => CroppingY
  }

  /** `findIndex` of the first state matching the pin. */
  function FindFirst(lane: seq<State>, p: Pin): (r: Option<nat>)
    ensures r.Some? ==> r.value < |lane| && Matches(p, lane[r.value])
    ensures r.Some? ==> forall k | 0 <= k < r.value :: !Matches(p, lane[k])
    ensures r.None? ==> forall k | 0 <= k < |lane| :: !Matches(p, lane[k])
  {
    if lane == [] then None
    else if Matches(p, lane[0]) then Some(0)
    else match FindFirst(lane[1..], p)
      case None => None
      case Some(k) => Some(k + 1)
  }

  /** Positions placed so far, and the ids pinned so far in any lane. */
  datatype Placement = Placement(positions: map<int, Point>, special: set<int>)

  const NoPlacement := Placement(map[], {})

  function PinFirst(pl: Placement, lane: seq<State>, p: Pin, x: real): Placement
  {
    match FindFirst(lane, p)
    case None => pl
    case Some(k) => Placement(pl.positions[lane[k].id := Point(x, PinY(p))], pl.special + {lane[k].id})
  }

  function PinAll(pl: Placement, lane: seq<State>, x: real): Placement
  {
    PinFirst(PinFirst(PinFirst(pl, lane, Reference, x), lane, Removed, x), lane, Cropping, x)
  }

  /** The lane's states whose id is not special, in lane order. */
  function Unpinned(lane: seq<State>, special: set<int>): (r: seq<State>)
    ensures |r| <= |lane|
  {
    if lane == [] then []
    else (if lane[0].id in special then [] else [lane[0]]) + Unpinned(lane[1..], special)
  }

  /** Row `k` of the stacked states sits at y = 150 + 120k. */
  function Stack(pos: map<int, Point>, rest: seq<State>, x: real): map<int, Point>
  {
    if rest == [] then pos
    else
      var k := |rest| - 1;
      Stack(pos, rest[..k], x)[rest[k].id := Point(x, StartY + (k as real) * VerticalSpacing)]
  }

  function PlaceLane(pl: Placement, lane: seq<State>, x: real): Placement
  {
    var pinned := PinAll(pl, lane, x);
    Placement(Stack(pinned.positions, Unpinned(lane, pinned.special), x), pinned.special)
  }

  /** The placement after the first |classes| lanes out of `n`. */
  function PlaceLanes(classes: seq<string>, n: nat, states: seq<State>, w: map<int, Weight>): Placement
    requires |classes| <= n && n > 0
  {
    if classes == [] then NoPlacement
    else
      var k := |classes| - 1;
      PlaceLane(PlaceLanes(classes[..k], n, states, w), Lane(states, w, classes[k]), LaneX(k, n))
  }

  lemma PlaceLanesStep(classes: seq<string>, k: nat, n: nat, states: seq<State>, w: map<int, Weight>)
    requires k < |classes| <= n
    ensures PlaceLanes(classes[..k + 1], n, states, w)
         == PlaceLane(PlaceLanes(classes[..k], n, states, w), Lane(states, w, classes[k]), LaneX(k, n))
  {
    assert classes[..k + 1][..k] == classes[..k];
  }

  /** The positions `optimizeNodeLayout` computes, keyed by state id. */
  function Layout(states: seq<State>, ts: seq<Transition>): map<int, Point>
  {
    var classes := SortedClasses(states);
    if |classes| == 0 then map[]
    else PlaceLanes(classes, |classes|, states, Weights(states, ts)).positions
  }

  /** Pins the first state of the lane matching `p` at the pin's row. */
  method PinInto(positions0: map<int, Point>, special0: set<int>, classStates: seq<State>, p: Pin, x: real)
    returns (positions: map<int, Point>, special: set<int>)
    ensures Placement(positions, special) == PinFirst(Placement(positions0, special0), classStates, p, x)
  {
    positions, special := positions0, special0;
    var index := FindFirst(classStates, p);
    if index.Some? {
      var pinned := classStates[index.value];
      positions := positions[pinned.id := Point(x, PinY(p))];
      special := special + {pinned.id};
    }
  }

  /** Stacks the remaining states of a lane below the pinned ones. */
  method StackInto(positions0: map<int, Point>, remaining: seq<State>, x: real) returns (positions: map<int, Point>)
    ensures positions == Stack(positions0, remaining, x)
  {
    positions := positions0;
    for k := 0 to |remaining|
      invariant positions == Stack(positions0, remaining[..k], x)
    {
      assert remaining[..k + 1][..k] == remaining[..k];
      positions := positions[remaining[k].id := Point(x, StartY + (k as real) * VerticalSpacing)];
    }
    assert remaining[..|remaining|] == remaining;
  }

  /** One iteration of the per-class loop: pin the special states of the
      sorted lane, then stack the rest. */
  method PlaceClass(positions0: map<int, Point>, special0: set<int>, classStates: seq<State>, x: real)
    returns (positions: map<int, Point>, special: set<int>)
    ensures Placement(positions, special) == PlaceLane(Placement(positions0, special0), classStates, x)
  {
    positions, special := PinInto(positions0, special0, classStates, Reference, x);
    positions, special := PinInto(positions, special, classStates, Removed, x);
    positions, special := PinInto(positions, special, classStates, Cropping, x);
    var remaining := Unpinned(classStates, special);
    positions := StackInto(positions, remaining, x);
  }

  /** `statesByClass.get(vastClass) || []`, sorted by connection weight. */
  method LaneStates(states: seq<State>, statesByClass: map<string, seq<State>>, cls: string, weights: map<int, Weight>)
    returns (classStates: seq<State>)
    requires forall k | k in statesByClass :: statesByClass[k] == Members(states, ClassOf, k)
    requires cls in statesByClass
    ensures classStates == Lane(states, weights, cls)
  {
    classStates := if cls in statesByClass then statesByClass[cls] else [];
    classStates := SortBy(classStates, ByWeight(weights));
  }

  /** One iteration of the loop over the sorted classes. */
  method PlaceNextLane(positions0: map<int, Point>, special0: set<int>, states: seq<State>,
                       statesByClass: map<string, seq<State>>, sortedClasses: seq<string>, ci: nat,
                       weights: map<int, Weight>)
    returns (positions: map<int, Point>, special: set<int>)
    requires ci < |sortedClasses| && sortedClasses[ci] in statesByClass
    requires forall k | k in statesByClass :: statesByClass[k] == Members(states, ClassOf, k)
    requires Placement(positions0, special0) == PlaceLanes(sortedClasses[..ci], |sortedClasses|, states, weights)
    ensures Placement(positions, special) == PlaceLanes(sortedClasses[..ci + 1], |sortedClasses|, states, weights)
  {
    var n := |sortedClasses|;
    var cls := sortedClasses[ci];
    var classStates := LaneStates(states, statesByClass, cls, weights);
    var x := LaneX(ci, n);
    positions, special := PlaceClass(positions0, special0, classStates, x);
    PlaceLanesStep(sortedClasses, ci, n, states, weights);
  }

  /** The loop over the sorted classes, one lane each. */
  method PlaceAllLanes(states: seq<State>, statesByClass: map<string, seq<State>>, sortedClasses: seq<string>,
                       weights: map<int, Weight>)
    returns (positions: map<int, Point>)
    requires |sortedClasses| > 0
    requires forall c | c in sortedClasses :: c in statesByClass
    requires forall k | k in statesByClass :: statesByClass[k] == Members(states, ClassOf, k)
    ensures positions == PlaceLanes(sortedClasses, |sortedClasses|, states, weights).positions
  {
    positions := map[];
    var n := |sortedClasses|;
    var special: set<int> := {};
    assert sortedClasses[..0] == [];
    for ci := 0 to n
      invariant Placement(positions, special) == PlaceLanes(sortedClasses[..ci], n, states, weights)
    {
      positions, special := PlaceNextLane(positions, special, states, statesByClass, sortedClasses, ci, weights);
    }
    assert sortedClasses[..n] == sortedClasses;
  }

  method OptimizeNodeLayout(states: seq<State>, ts: seq<Transition>) returns (positions: map<int, Point>)
    ensures positions == Layout(states, ts)
  {
    positions := map[];
    var order, statesByClass := GroupBy(states, ClassOf);
    var sortedClasses := SortBy(order, ClassRank);
    var weights := ComputeWeights(states, ts);
    if |sortedClasses| == 0 {
      return;
    }
    assert forall c | c in sortedClasses :: c in statesByClass by {
      forall c | c in sortedClasses ensures c in statesByClass {
        assert c in multiset(order);
      }
    }
    positions := PlaceAllLanes(states, statesByClass, sortedClasses, weights);
  }
}
