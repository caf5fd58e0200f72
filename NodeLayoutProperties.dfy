/** What the swimlane layout guarantees: how connection weights are counted,
    the order of lanes and of states within a lane, which states get a
    position, and where each state lands. */
module NodeLayoutProperties {
  import opened Common
  import opened Model
  import opened NodeLayout

  // ---------------------------------------------------------------------------
  // Weights

  lemma {:induction false} InitialWeightsZero(states: seq<State>, id: int)
    ensures Lookup(InitialWeights(states), id) == NoWeight
    ensures (exists s :: s in states && s.id == id) ==> id in InitialWeights(states)
  {
    if states != [] {
      var init := states[..|states| - 1];
      InitialWeightsZero(init, id);
      if exists s :: s in states && s.id == id {
        var s :| s in states && s.id == id;
        if s != states[|states| - 1] {
          assert s in init;
        }
      }
    }
  }

  /** The weight of a state counts the plausible transitions between two
      different states that leave it (outbound) and that enter it (inbound);
      every state of the document has an entry. */
  lemma {:induction false} WeightsCount(states: seq<State>, ts: seq<Transition>, id: int)
    ensures Lookup(Weights(states, ts), id)
         == Weight(Inbound(ts, id), Outbound(ts, id), Inbound(ts, id) + Outbound(ts, id))
    ensures (exists s :: s in states && s.id == id) ==> id in Weights(states, ts)
  {
    if ts == [] {
      InitialWeightsZero(states, id);
    } else {
      WeightsCount(states, ts[..|ts| - 1], id);
    }
  }

  /** Sum of the totals of the ids in `ids`. */
  function TotalSum(w: map<int, Weight>, ids: seq<int>): nat
  {
    if ids == [] then 0 else Lookup(w, ids[0]).total + TotalSum(w, ids[1..])
  }

  function DegreeSum(ts: seq<Transition>, ids: seq<int>): nat
  {
    if ids == [] then 0 else Inbound(ts, ids[0]) + Outbound(ts, ids[0]) + DegreeSum(ts, ids[1..])
  }

  function Occurrences(ids: seq<int>, x: int): nat
  {
    if ids == [] then 0 else (if ids[0] == x then 1 else 0) + Occurrences(ids[1..], x)
  }

  lemma {:induction false} OccurrencesOnce(ids: seq<int>, x: int)
    requires NoDuplicates(ids) && x in ids
    ensures Occurrences(ids, x) == 1
  {
    if ids[0] == x {
      OccurrencesNone(ids[1..], x);
    } else {
      OccurrencesOnce(ids[1..], x);
    }
  }

  lemma {:induction false} OccurrencesNone(ids: seq<int>, x: int)
    requires x !in ids
    ensures Occurrences(ids, x) == 0
  {
    if ids != [] {
      OccurrencesNone(ids[1..], x);
    }
  }

  lemma {:induction false} TotalSumDegrees(states: seq<State>, ts: seq<Transition>, ids: seq<int>)
    ensures TotalSum(Weights(states, ts), ids) == DegreeSum(ts, ids)
  {
    if ids != [] {
      WeightsCount(states, ts, ids[0]);
      TotalSumDegrees(states, ts, ids[1..]);
    }
  }

  lemma {:induction false} DegreeSumStep(ts: seq<Transition>, t: Transition, ids: seq<int>)
    ensures DegreeSum(ts + [t], ids)
         == DegreeSum(ts, ids) + (if Counted(t) then Occurrences(ids, t.startId) + Occurrences(ids, t.endId) else 0)
  {
    var ts' := ts + [t];
    assert ts'[..|ts'| - 1] == ts;
    if ids != [] {
      DegreeSumStep(ts, t, ids[1..]);
    }
  }

  /** Each counted transition adds one to two totals, so over any duplicate-free
      list of ids holding every endpoint the totals add up to twice the number
      of counted transitions. */
  lemma {:induction false} WeightsSum(states: seq<State>, ts: seq<Transition>, ids: seq<int>)
    requires NoDuplicates(ids)
    requires forall t | t in ts && Counted(t) :: t.startId in ids && t.endId in ids
    ensures TotalSum(Weights(states, ts), ids) == 2 * CountedCount(ts)
  {
    TotalSumDegrees(states, ts, ids);
    DegreeSumTwice(ts, ids);
  }

  lemma {:induction false} DegreeSumTwice(ts: seq<Transition>, ids: seq<int>)
    requires NoDuplicates(ids)
    requires forall t | t in ts && Counted(t) :: t.startId in ids && t.endId in ids
    ensures DegreeSum(ts, ids) == 2 * CountedCount(ts)
  {
    if ts == [] {
      DegreeSumEmpty(ids);
    } else {
      var init := ts[..|ts| - 1];
      var t := ts[|ts| - 1];
      assert ts == init + [t];
      DegreeSumTwice(init, ids);
      DegreeSumStep(init, t, ids);
      if Counted(t) {
        OccurrencesOnce(ids, t.startId);
        OccurrencesOnce(ids, t.endId);
      }
    }
  }

  lemma {:induction false} DegreeSumEmpty(ids: seq<int>)
    ensures DegreeSum([], ids) == 0
  {
    if ids != [] {
      DegreeSumEmpty(ids[1..]);
    }
  }

  // ---------------------------------------------------------------------------
  // Lanes

  /** The lanes are the classes of the states, each once, in ascending rank;
      classes of equal rank keep their order of first appearance. */
  lemma SortedClassesOrder(states: seq<State>)
    ensures SortedBy(SortedClasses(states), ClassRank)
    ensures NoDuplicates(SortedClasses(states))
    ensures forall c :: c in SortedClasses(states) <==> c in MapSeq(states, ClassOf)
    ensures forall r :: Members(SortedClasses(states), ClassRank, r)
                     == Members(Distinct(MapSeq(states, ClassOf)), ClassRank, r)
  {
    var d := Distinct(MapSeq(states, ClassOf));
    MultisetNoDuplicates(SortedClasses(states), d);
    forall r ensures Members(SortedClasses(states), ClassRank, r) == Members(d, ClassRank, r) {
      SortByStable(d, ClassRank, r);
    }
    forall c ensures c in SortedClasses(states) <==> c in MapSeq(states, ClassOf) {
      assert c in SortedClasses(states) <==> c in multiset(d);
    }
  }

  lemma ClassInLanes(states: seq<State>, s: State)
    requires s in states
    ensures ClassOf(s) in SortedClasses(states)
  {
    SortedClassesOrder(states);
    var j :| 0 <= j < |states| && states[j] == s;
    assert MapSeq(states, ClassOf)[j] == ClassOf(s);
  }

  /** A lane holds exactly the states of its class, ordered by descending
      weight, and states of equal weight keep their order in the document. */
  lemma LaneOrder(states: seq<State>, w: map<int, Weight>, c: string)
    ensures forall s :: s in Lane(states, w, c) <==> s in states && ClassOf(s) == c
    ensures SortedBy(Lane(states, w, c), ByWeight(w))
    ensures forall k :: Members(Lane(states, w, c), ByWeight(w), k)
                     == Members(Members(states, ClassOf, c), ByWeight(w), k)
  {
    var m := Members(states, ClassOf, c);
    forall s ensures s in Lane(states, w, c) <==> s in states && ClassOf(s) == c {
      MembersIn(states, ClassOf, c, s);
      assert s in Lane(states, w, c) <==> s in multiset(m);
    }
    forall k ensures Members(Lane(states, w, c), ByWeight(w), k) == Members(m, ByWeight(w), k) {
      SortByStable(m, ByWeight(w), k);
    }
  }

  // ---------------------------------------------------------------------------
  // Which states get a position

  function StateIds(states: seq<State>): set<int>
  {
    set s | s in states :: s.id
  }

  function PinnedId(lane: seq<State>, p: Pin): set<int>
  {
    match FindFirst(lane, p)
    case None => {}
    case Some(k) => {lane[k].id}
  }

  /** The ids of the first Reference, Removed and Cropping states of a lane. */
  function PinnedIds(lane: seq<State>): set<int>
  {
    PinnedId(lane, Reference) + PinnedId(lane, Removed) + PinnedId(lane, Cropping)
  }

  /** The states of a lane that are stacked: those not pinned. */
  function Remaining(lane: seq<State>): seq<State>
  {
    Unpinned(lane, PinnedIds(lane))
  }

  lemma PinAllFacts(pl: Placement, lane: seq<State>, x: real)
    ensures PinAll(pl, lane, x).special == pl.special + PinnedIds(lane)
    ensures PinAll(pl, lane, x).positions.Keys == pl.positions.Keys + PinnedIds(lane)
    ensures PinnedIds(lane) <= StateIds(lane)
    ensures forall id | id in pl.positions && id !in PinnedIds(lane) :: PinAll(pl, lane, x).positions[id] == pl.positions[id]
  {
    var p1 := PinFirst(pl, lane, Reference, x);
    var p2 := PinFirst(p1, lane, Removed, x);
    PinFirstFacts(pl, lane, Reference, x);
    PinFirstFacts(p1, lane, Removed, x);
    PinFirstFacts(p2, lane, Cropping, x);
  }

  lemma PinFirstFacts(pl: Placement, lane: seq<State>, p: Pin, x: real)
    ensures PinFirst(pl, lane, p, x).special == pl.special + PinnedId(lane, p)
    ensures PinFirst(pl, lane, p, x).positions.Keys == pl.positions.Keys + PinnedId(lane, p)
    ensures PinnedId(lane, p) <= StateIds(lane)
    ensures forall id | id in pl.positions && id !in PinnedId(lane, p) :: PinFirst(pl, lane, p, x).positions[id] == pl.positions[id]
  {
  }

  lemma {:induction false} UnpinnedIn(lane: seq<State>, special: set<int>, s: State)
    ensures s in Unpinned(lane, special) <==> s in lane && s.id !in special
  {
    if lane != [] {
      UnpinnedIn(lane[1..], special, s);
      assert s in lane <==> s == lane[0] || s in lane[1..];
    }
  }

  lemma {:induction false} StackFacts(pos: map<int, Point>, rest: seq<State>, x: real)
    ensures Stack(pos, rest, x).Keys == pos.Keys + StateIds(rest)
    ensures forall id | id in pos && id !in StateIds(rest) :: Stack(pos, rest, x)[id] == pos[id]
  {
    if rest != [] {
      var k := |rest| - 1;
      StackFacts(pos, rest[..k], x);
      assert rest == rest[..k] + [rest[k]];
      assert StateIds(rest) == StateIds(rest[..k]) + {rest[k].id};
    }
  }

  /** Placing a lane adds exactly the lane's ids and changes no other
      position. */
  lemma PlaceLaneFacts(pl: Placement, lane: seq<State>, x: real)
    ensures PlaceLane(pl, lane, x).special == pl.special + PinnedIds(lane)
    ensures pl.positions.Keys <= PlaceLane(pl, lane, x).positions.Keys
    ensures pl.special <= pl.positions.Keys ==>
      PlaceLane(pl, lane, x).positions.Keys == pl.positions.Keys + StateIds(lane)
    ensures forall id | id in pl.positions && id !in StateIds(lane) ::
      PlaceLane(pl, lane, x).positions[id] == pl.positions[id]
  {
    var pinned := PinAll(pl, lane, x);
    PinAllFacts(pl, lane, x);
    var rest := Unpinned(lane, pinned.special);
    StackFacts(pinned.positions, rest, x);
    forall s | s in rest ensures s in lane {
      UnpinnedIn(lane, pinned.special, s);
    }
    if pl.special <= pl.positions.Keys {
      forall s | s in lane ensures s.id in PlaceLane(pl, lane, x).positions {
        UnpinnedIn(lane, pinned.special, s);
      }
    }
  }

  lemma {:induction false} PlaceLanesKeys(classes: seq<string>, n: nat, states: seq<State>, w: map<int, Weight>)
    requires |classes| <= n && n > 0
    ensures PlaceLanes(classes, n, states, w).special <= PlaceLanes(classes, n, states, w).positions.Keys
    ensures PlaceLanes(classes, n, states, w).positions.Keys == set s | s in states && ClassOf(s) in classes :: s.id
  {
    if classes != [] {
      var k := |classes| - 1;
      var prev := PlaceLanes(classes[..k], n, states, w);
      PlaceLanesKeys(classes[..k], n, states, w);
      var lane := Lane(states, w, classes[k]);
      PlaceLaneFacts(prev, lane, LaneX(k, n));
      PinAllFacts(prev, lane, LaneX(k, n));
      LaneMembers(states, w, classes[k]);
      KeysStep(classes, states, lane, prev.positions.Keys, PlaceLanes(classes, n, states, w).positions.Keys);
    }
  }

  lemma LaneMembers(states: seq<State>, w: map<int, Weight>, c: string)
    ensures forall s :: s in Lane(states, w, c) <==> s in states && ClassOf(s) == c
  {
    LaneOrder(states, w, c);
  }

  /** The ids placed after one more lane are those of the states whose class
      is among the lanes so far. */
  lemma KeysStep(classes: seq<string>, states: seq<State>, lane: seq<State>, prevKeys: set<int>, keys: set<int>)
    requires classes != []
    requires prevKeys == set s | s in states && ClassOf(s) in classes[..|classes| - 1] :: s.id
    requires keys == prevKeys + StateIds(lane)
    requires forall s :: s in lane <==> s in states && ClassOf(s) == classes[|classes| - 1]
    ensures keys == set s | s in states && ClassOf(s) in classes :: s.id
  {
    var k := |classes| - 1;
    assert classes == classes[..k] + [classes[k]];
    forall id | id in keys ensures exists s :: s in states && ClassOf(s) in classes && s.id == id {
      if id in StateIds(lane) {
        var s :| s in lane && s.id == id;
        assert s in states && ClassOf(s) == classes[k];
      } else {
        var s :| s in states && ClassOf(s) in classes[..k] && s.id == id;
        assert ClassOf(s) in classes;
      }
    }
    forall s | s in states && ClassOf(s) in classes ensures s.id in keys {
      if ClassOf(s) == classes[k] {
        assert s in lane;
      } else {
        assert ClassOf(s) in classes[..k];
      }
    }
  }

  /** Every state gets a position, and only states do: the fallback position
      (0,0) of `statesToNodes` is never used. */
  lemma LayoutCovers(states: seq<State>, ts: seq<Transition>)
    ensures Layout(states, ts).Keys == StateIds(states)
  {
    var classes := SortedClasses(states);
    forall s | s in states ensures ClassOf(s) in classes {
      ClassInLanes(states, s);
    }
    if |classes| > 0 {
      PlaceLanesKeys(classes, |classes|, states, Weights(states, ts));
    }
  }

  // ---------------------------------------------------------------------------
  // Horizontal position

  /** Lane `i` of `n` lies between the margins: 100 <= x < 1300. */
  lemma LaneXRange(i: nat, n: nat)
    requires i < n
    ensures LeftMargin <= LaneX(i, n) < LeftMargin + UsableWidth
  {
    var sp := LaneSpacing(n);
    assert sp * (n as real) == UsableWidth;
    assert sp > 0.0;
    assert (i as real) * sp <= ((n - 1) as real) * sp;
    assert ((n - 1) as real) * sp == UsableWidth - sp;
  }

  predicate XWithin(pos: map<int, Point>, lo: real, hi: real)
  {
    forall id | id in pos :: lo <= pos[id].x < hi
  }

  lemma {:induction false} StackX(pos: map<int, Point>, rest: seq<State>, x: real, lo: real, hi: real)
    requires XWithin(pos, lo, hi) && lo <= x < hi
    ensures XWithin(Stack(pos, rest, x), lo, hi)
  {
    if rest != [] {
      StackX(pos, rest[..|rest| - 1], x, lo, hi);
    }
  }

  lemma PlaceLaneX(pl: Placement, lane: seq<State>, x: real, lo: real, hi: real)
    requires XWithin(pl.positions, lo, hi) && lo <= x < hi
    ensures XWithin(PlaceLane(pl, lane, x).positions, lo, hi)
  {
    var pinned := PinAll(pl, lane, x);
    assert XWithin(pinned.positions, lo, hi);
    StackX(pinned.positions, Unpinned(lane, pinned.special), x, lo, hi);
  }

  lemma {:induction false} PlaceLanesX(classes: seq<string>, n: nat, states: seq<State>, w: map<int, Weight>)
    requires |classes| <= n && n > 0
    ensures XWithin(PlaceLanes(classes, n, states, w).positions, LeftMargin, LeftMargin + UsableWidth)
  {
    if classes != [] {
      var k := |classes| - 1;
      PlaceLanesX(classes[..k], n, states, w);
      LaneXRange(k, n);
      PlaceLaneX(PlaceLanes(classes[..k], n, states, w), Lane(states, w, classes[k]), LaneX(k, n),
                 LeftMargin, LeftMargin + UsableWidth);
    }
  }

  /** Every position lies inside the viewport's margins: 100 <= x < 1300. */
  lemma LayoutXRange(states: seq<State>, ts: seq<Transition>)
    ensures forall id | id in Layout(states, ts) :: 100.0 <= Layout(states, ts)[id].x < 1300.0
  {
    var classes := SortedClasses(states);
    if |classes| > 0 {
      PlaceLanesX(classes, |classes|, states, Weights(states, ts));
    }
  }

  // ---------------------------------------------------------------------------
  // Where each state lands

  /** No two states share an id. */
  predicate UniqueIds(states: seq<State>)
  {
    forall i, j | 0 <= i < j < |states| :: states[i].id != states[j].id
  }

  /** The positions one lane gets on its own. */
  function LanePositions(lane: seq<State>, x: real): map<int, Point>
  {
    PlaceLane(NoPlacement, lane, x).positions
  }

  predicate AgreeOn(a: map<int, Point>, b: map<int, Point>, ids: set<int>)
  {
    forall id | id in ids :: (id in a <==> id in b) && (id in a ==> a[id] == b[id])
  }

  lemma {:induction false} StackAgree(a: map<int, Point>, b: map<int, Point>, rest: seq<State>, x: real, ids: set<int>)
    requires AgreeOn(a, b, ids)
    ensures AgreeOn(Stack(a, rest, x), Stack(b, rest, x), ids)
  {
    if rest != [] {
      StackAgree(a, b, rest[..|rest| - 1], x, ids);
    }
  }

  lemma {:induction false} UnpinnedSame(lane: seq<State>, s1: set<int>, s2: set<int>)
    requires forall s | s in lane :: s.id in s1 <==> s.id in s2
    ensures Unpinned(lane, s1) == Unpinned(lane, s2)
  {
    if lane != [] {
      assert lane[0] in lane;
      forall s | s in lane[1..] ensures s.id in s1 <==> s.id in s2 {
        assert s in lane;
      }
      UnpinnedSame(lane[1..], s1, s2);
    }
  }

  /** A lane whose ids nothing placed so far mentions gets the same positions
      as it would on its own. */
  lemma PlaceLaneLocal(pl: Placement, lane: seq<State>, x: real)
    requires pl.special !! StateIds(lane) && pl.positions.Keys !! StateIds(lane)
    ensures AgreeOn(PlaceLane(pl, lane, x).positions, LanePositions(lane, x), StateIds(lane))
  {
    var p1 := PinAll(pl, lane, x);
    var p2 := PinAll(NoPlacement, lane, x);
    PinAllFacts(pl, lane, x);
    PinAllFacts(NoPlacement, lane, x);
    assert AgreeOn(p1.positions, p2.positions, StateIds(lane));
    forall s | s in lane ensures s.id in p1.special <==> s.id in p2.special {
      assert s.id in StateIds(lane);
    }
    UnpinnedSame(lane, p1.special, p2.special);
    StackAgree(p1.positions, p2.positions, Unpinned(lane, p1.special), x, StateIds(lane));
  }

  lemma UniqueIdsInjective(states: seq<State>)
    requires UniqueIds(states)
    ensures forall a, b | a in states && b in states && a.id == b.id :: a == b
  {
    forall a, b | a in states && b in states && a.id == b.id ensures a == b {
      var i :| 0 <= i < |states| && states[i] == a;
      var j :| 0 <= j < |states| && states[j] == b;
      assert i == j;
    }
  }

  lemma {:induction false} PlaceLanesAt(classes: seq<string>, n: nat, states: seq<State>, w: map<int, Weight>, s: State, i: nat, m: nat)
    requires |classes| <= n && n > 0 && NoDuplicates(classes) && UniqueIds(states)
    requires s in states && i < m <= |classes| && classes[i] == ClassOf(s)
    ensures s.id in PlaceLanes(classes[..m], n, states, w).positions
    ensures s.id in LanePositions(Lane(states, w, classes[i]), LaneX(i, n))
    ensures PlaceLanes(classes[..m], n, states, w).positions[s.id]
         == LanePositions(Lane(states, w, classes[i]), LaneX(i, n))[s.id]
  {
    var k := m - 1;
    PlaceLanesStep(classes, k, n, states, w);
    var prev := PlaceLanes(classes[..k], n, states, w);
    PlaceLanesKeys(classes[..k], n, states, w);
    var lane := Lane(states, w, classes[k]);
    LaneOrder(states, w, classes[k]);
    PlaceLaneFacts(prev, lane, LaneX(k, n));
    UniqueIdsInjective(states);
    if k == i {
      assert classes[k] !in classes[..k];
      assert prev.positions.Keys !! StateIds(lane);
      PlaceLaneLocal(prev, lane, LaneX(k, n));
      assert s in lane;
      assert s.id in StateIds(lane);
    } else {
      PlaceLanesAt(classes, n, states, w, s, i, k);
      assert classes[i] != classes[k];
      assert s.id !in StateIds(lane);
    }
  }

  /** With unique state ids, a state's position is the one its lane gives it
      on its own, at the x of its lane: the lanes do not interfere. */
  lemma LayoutAt(states: seq<State>, ts: seq<Transition>, s: State)
    requires UniqueIds(states) && s in states
    ensures var classes := SortedClasses(states);
      ClassOf(s) in classes &&
      var i := FirstIndex(classes, ClassOf(s));
      var lane := Lane(states, Weights(states, ts), ClassOf(s));
      s.id in Layout(states, ts) && s.id in LanePositions(lane, LaneX(i, |classes|)) &&
      Layout(states, ts)[s.id] == LanePositions(lane, LaneX(i, |classes|))[s.id]
  {
    var classes := SortedClasses(states);
    ClassInLanes(states, s);
    SortedClassesOrder(states);
    var i := FirstIndex(classes, ClassOf(s));
    assert classes[..|classes|] == classes;
    PlaceLanesAt(classes, |classes|, states, Weights(states, ts), s, i, |classes|);
  }

  // ---------------------------------------------------------------------------
  // Inside one lane

  lemma LaneUniqueIds(states: seq<State>, w: map<int, Weight>, c: string)
    requires UniqueIds(states)
    ensures UniqueIds(Lane(states, w, c))
  {
    var lane := Lane(states, w, c);
    var m := Members(states, ClassOf, c);
    assert NoDuplicates(states);
    MembersNoDuplicates(states, ClassOf, c);
    MultisetNoDuplicates(lane, m);
    LaneOrder(states, w, c);
    UniqueIdsInjective(states);
    forall i, j | 0 <= i < j < |lane| ensures lane[i].id != lane[j].id {
      assert lane[i] in states && lane[j] in states;
    }
  }

  predicate AllAtX(pos: map<int, Point>, x: real)
  {
    forall id | id in pos :: pos[id].x == x
  }

  lemma {:induction false} StackAtX(pos: map<int, Point>, rest: seq<State>, x: real)
    requires AllAtX(pos, x)
    ensures AllAtX(Stack(pos, rest, x), x)
  {
    if rest != [] {
      StackAtX(pos, rest[..|rest| - 1], x);
    }
  }

  /** Every state of a lane shares the lane's x. */
  lemma LaneSameX(lane: seq<State>, x: real)
    ensures AllAtX(LanePositions(lane, x), x)
  {
    var pinned := PinAll(NoPlacement, lane, x);
    assert AllAtX(pinned.positions, x);
    StackAtX(pinned.positions, Unpinned(lane, pinned.special), x);
  }

  lemma PinNamesDiffer()
    ensures !Contains("Reference", "Cropping") && !Contains("Removed", "Cropping")
  {
    var reference, removed, cropping := "Reference", "Removed", "Cropping";
    assert cropping[0] == 'C';
    assert forall i | 0 <= i < |reference| :: reference[i] != 'C';
    assert forall i | 0 <= i < |removed| :: removed[i] != 'C';
    NotContainsWithoutFirstChar(reference, cropping);
    NotContainsWithoutFirstChar(removed, cropping);
  }

  /** Pinning for `q` leaves the position of a state not matching `q` alone. */
  lemma PinFirstOther(pl: Placement, lane: seq<State>, q: Pin, x: real, k: nat)
    requires UniqueIds(lane) && k < |lane| && !Matches(q, lane[k]) && lane[k].id in pl.positions
    ensures lane[k].id in PinFirst(pl, lane, q, x).positions
    ensures PinFirst(pl, lane, q, x).positions[lane[k].id] == pl.positions[lane[k].id]
  {
    match FindFirst(lane, q)
    case None =>
    case Some(j) => assert j != k;
  }

  /** The first Reference, Removed and Cropping states of a lane are placed at
      y = 50, 600 and 500. */
  lemma LanePin(lane: seq<State>, x: real, p: Pin)
    requires UniqueIds(lane) && FindFirst(lane, p).Some?
    ensures lane[FindFirst(lane, p).value].id in LanePositions(lane, x)
    ensures LanePositions(lane, x)[lane[FindFirst(lane, p).value].id] == Point(x, PinY(p))
  {
    var k := FindFirst(lane, p).value;
    var id := lane[k].id;
    PinNamesDiffer();
    var p1 := PinFirst(NoPlacement, lane, Reference, x);
    var p2 := PinFirst(p1, lane, Removed, x);
    var p3 := PinFirst(p2, lane, Cropping, x);
    match p {
      case Reference =>
        PinFirstOther(p1, lane, Removed, x, k);
        PinFirstOther(p2, lane, Cropping, x, k);
      case Removed =>
        PinFirstOther(p2, lane, Cropping, x, k);
      case Cropping =>
    }
    assert id in p3.positions && p3.positions[id] == Point(x, PinY(p));
    PinAllFacts(NoPlacement, lane, x);
    var rest := Unpinned(lane, p3.special);
    forall t | t in rest ensures t.id != id {
      UnpinnedIn(lane, p3.special, t);
    }
    StackFacts(p3.positions, rest, x);
  }

  lemma {:induction false} UnpinnedUnique(lane: seq<State>, special: set<int>)
    requires UniqueIds(lane)
    ensures UniqueIds(Unpinned(lane, special))
  {
    if lane != [] {
      UnpinnedUnique(lane[1..], special);
      var r := Unpinned(lane[1..], special);
      forall j | 0 <= j < |r| ensures r[j].id != lane[0].id {
        UnpinnedIn(lane[1..], special, r[j]);
        var m :| 0 <= m < |lane[1..]| && lane[1..][m] == r[j];
        assert lane[m + 1] == r[j];
      }
      if lane[0].id !in special {
        var u := [lane[0]] + r;
        forall i, j | 0 <= i < j < |u| ensures u[i].id != u[j].id {
          if i == 0 { assert u[j] == r[j - 1]; } else { assert u[i] == r[i - 1] && u[j] == r[j - 1]; }
        }
      }
    }
  }

  lemma {:induction false} StackAt(pos: map<int, Point>, rest: seq<State>, x: real, k: nat)
    requires UniqueIds(rest) && k < |rest|
    ensures rest[k].id in Stack(pos, rest, x)
    ensures Stack(pos, rest, x)[rest[k].id] == Point(x, StartY + (k as real) * VerticalSpacing)
  {
    var last := |rest| - 1;
    if k < last {
      var init := rest[..last];
      assert UniqueIds(init);
      StackAt(pos, init, x, k);
      assert rest[k].id != rest[last].id;
    }
  }

  /** The states of a lane that are not pinned are stacked in lane order, the
      k-th at y = 150 + 120k. */
  lemma LaneStack(lane: seq<State>, x: real, k: nat)
    requires UniqueIds(lane) && k < |Remaining(lane)|
    ensures Remaining(lane)[k].id in LanePositions(lane, x)
    ensures LanePositions(lane, x)[Remaining(lane)[k].id] == Point(x, StartY + (k as real) * VerticalSpacing)
  {
    var pinned := PinAll(NoPlacement, lane, x);
    PinAllFacts(NoPlacement, lane, x);
    assert pinned.special == PinnedIds(lane);
    UnpinnedUnique(lane, PinnedIds(lane));
    StackAt(pinned.positions, Remaining(lane), x, k);
  }

  /** The stacked states keep the lane's descending-weight order. */
  lemma {:induction false} UnpinnedSorted(lane: seq<State>, special: set<int>, key: State -> real)
    requires SortedBy(lane, key)
    ensures SortedBy(Unpinned(lane, special), key)
  {
    if lane != [] {
      UnpinnedSorted(lane[1..], special, key);
      var r := Unpinned(lane[1..], special);
      forall j | 0 <= j < |r| ensures key(lane[0]) <= key(r[j]) {
        UnpinnedIn(lane[1..], special, r[j]);
        var m :| 0 <= m < |lane[1..]| && lane[1..][m] == r[j];
        assert lane[m + 1] == r[j];
      }
      if lane[0].id !in special {
        var u := [lane[0]] + r;
        forall i, j | 0 <= i < j < |u| ensures key(u[i]) <= key(u[j]) {
          if i == 0 { assert u[j] == r[j - 1]; } else { assert u[i] == r[i - 1] && u[j] == r[j - 1]; }
        }
      }
    }
  }

  /** Where a state lands: at the x of its class's lane; at the pin's row if
      it is its lane's first Reference, Removed or Cropping state; otherwise at
      row 150 + 120k, k its rank among the lane's unpinned states, which are in
      descending weight order. */
  lemma LayoutPosition(states: seq<State>, ts: seq<Transition>, s: State)
    requires UniqueIds(states) && s in states
    ensures var classes := SortedClasses(states);
      ClassOf(s) in classes &&
      var x := LaneX(FirstIndex(classes, ClassOf(s)), |classes|);
      var lane := Lane(states, Weights(states, ts), ClassOf(s));
      s.id in Layout(states, ts) &&
      Layout(states, ts)[s.id].x == x &&
      SortedBy(Remaining(lane), ByWeight(Weights(states, ts))) &&
      (forall p | FindFirst(lane, p).Some? && lane[FindFirst(lane, p).value] == s ::
        Layout(states, ts)[s.id] == Point(x, PinY(p))) &&
      (forall k | 0 <= k < |Remaining(lane)| && Remaining(lane)[k] == s ::
        Layout(states, ts)[s.id] == Point(x, StartY + (k as real) * VerticalSpacing))
  {
    var classes := SortedClasses(states);
    var w := Weights(states, ts);
    LayoutAt(states, ts, s);
    var x := LaneX(FirstIndex(classes, ClassOf(s)), |classes|);
    var lane := Lane(states, w, ClassOf(s));
    LaneSameX(lane, x);
    LaneUniqueIds(states, w, ClassOf(s));
    LaneOrder(states, w, ClassOf(s));
    UnpinnedSorted(lane, PinnedIds(lane), ByWeight(w));
    forall p | FindFirst(lane, p).Some? && lane[FindFirst(lane, p).value] == s
      ensures Layout(states, ts)[s.id] == Point(x, PinY(p))
    {
      LanePin(lane, x, p);
    }
    forall k | 0 <= k < |Remaining(lane)| && Remaining(lane)[k] == s
      ensures Layout(states, ts)[s.id] == Point(x, StartY + (k as real) * VerticalSpacing)
    {
      LaneStack(lane, x, k);
    }
  }
}
