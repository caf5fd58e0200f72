/** Editing the causal chain of a transition in the transition dialog: the
    chain is a list of named parts, each holding drivers tagged with a
    driver group. */
module CausalChain {
  import opened Common
  import opened Model

  /** The number of drivers over all parts. */
  function TotalDrivers(chain: seq<ChainPart>): nat
  {
    if chain == [] then 0 else |chain[0].drivers| + TotalDrivers(chain[1..])
  }

  /** The "no drivers" message shows exactly when every part is empty. */
  lemma {:induction false} TotalDriversZero(chain: seq<ChainPart>)
    ensures TotalDrivers(chain) == 0 <==> forall p | p in chain :: p.drivers == []
  {
    if chain != [] {
      TotalDriversZero(chain[1..]);
      assert forall p | p in chain :: p == chain[0] || p in chain[1..];
    }
  }

  lemma {:induction false} TotalDriversAppend(a: seq<ChainPart>, b: seq<ChainPart>)
    ensures TotalDrivers(a + b) == TotalDrivers(a) + TotalDrivers(b)
  {
    if a == [] {
      assert a + b == b;
    } else {
      assert (a + b)[1..] == a[1..] + b;
      TotalDriversAppend(a[1..], b);
    }
  }

  /** Replacing one part changes the total by the change in that part. */
  lemma {:induction false} TotalDriversUpdate(chain: seq<ChainPart>, k: nat, q: ChainPart)
    requires k < |chain|
    ensures TotalDrivers(chain[k := q]) + |chain[k].drivers| == TotalDrivers(chain) + |q.drivers|
  {
    if k > 0 {
      assert chain[k := q][1..] == chain[1..][k - 1 := q];
      TotalDriversUpdate(chain[1..], k - 1, q);
    }
  }

  // ---------------------------------------------------------------------------
  // Deleting a driver

  /** `handleDeleteDriver`: drops the driver with the given group and name
      from every part with the given name. */
  function DeleteDriver(chain: seq<ChainPart>, partName: string, group: string, name: string): (r: seq<ChainPart>)
    ensures |r| == |chain|
    ensures forall i | 0 <= i < |chain| :: r[i].name == chain[i].name
    ensures forall i | 0 <= i < |chain| && chain[i].name != partName :: r[i] == chain[i]
    ensures forall i, d | 0 <= i < |chain| && chain[i].name == partName ::
      d in r[i].drivers <==> d in chain[i].drivers && d != Driver(name, group)
    ensures forall i | 0 <= i < |chain| && chain[i].name == partName ::
      r[i].drivers == Filter(chain[i].drivers, (d: Driver) => !(d.group == group && d.driver == name))
  {
    seq(|chain|, i requires 0 <= i < |chain| =>
      if chain[i].name != partName then chain[i]
      else chain[i].(drivers := Filter(chain[i].drivers, (d: Driver) => !(d.group == group && d.driver == name))))
  }

  /** Deleting never adds drivers, and removes at least one when a part
      with that name holds the driver. */
  lemma {:induction false} DeleteDriverTotal(chain: seq<ChainPart>, partName: string, group: string, name: string)
    ensures TotalDrivers(DeleteDriver(chain, partName, group, name)) <= TotalDrivers(chain)
    ensures (exists p | p in chain :: p.name == partName && Driver(name, group) in p.drivers) ==>
      TotalDrivers(DeleteDriver(chain, partName, group, name)) < TotalDrivers(chain)
  {
    if chain != [] {
      var r := DeleteDriver(chain, partName, group, name);
      assert r[1..] == DeleteDriver(chain[1..], partName, group, name);
      DeleteDriverTotal(chain[1..], partName, group, name);
      if chain[0].name == partName {
        var d := Driver(name, group);
        if d in chain[0].drivers {
          FilterShrinks(chain[0].drivers, (x: Driver) => !(x.group == group && x.driver == name), d);
        }
      }
      assert forall p | p in chain :: p == chain[0] || p in chain[1..];
    }
  }

  /** Filtering out an element that is present makes the sequence shorter. */
  lemma {:induction false} FilterShrinks<T(!new)>(s: seq<T>, p: T -> bool, x: T)
    requires x in s && !p(x)
    ensures |Filter(s, p)| < |s|
  {
    if s[0] != x {
      FilterShrinks(s[1..], p, x);
    }
  }

  // ---------------------------------------------------------------------------
  // Adding a driver

  /** `findIndex` of the first part with the given name. */
  function FindPart(chain: seq<ChainPart>, partName: string): (r: Option<nat>)
    ensures r.Some? ==> r.value < |chain| && chain[r.value].name == partName &&
                        (forall i | 0 <= i < r.value :: chain[i].name != partName)
    ensures r.None? ==> forall i | 0 <= i < |chain| :: chain[i].name != partName
  {
    if chain == [] then None
    else if chain[0].name == partName then Some(0)
    else match FindPart(chain[1..], partName)
      case None => None
      case Some(k) => Some(k + 1)
  }

  /** The drivers of a part once the driver is added: unchanged if present,
      appended otherwise. */
  function AddTo(drivers: seq<Driver>, d: Driver): seq<Driver>
  {
    if d in drivers then drivers else drivers + [d]
  }

  /** What `handleAddDriver` produces: nothing changes when a field is
      empty; otherwise the driver goes into the first part with the name,
      or into a new part appended at the end. */
  function WithDriver(chain: seq<ChainPart>, partName: string, group: string, name: string): seq<ChainPart>
  {
    if partName == "" || group == "" || name == "" then chain
    else
      var d := Driver(name, group);
      match FindPart(chain, partName)
      case None => chain + [ChainPart(partName, [d])]
      case Some(k) => chain[k := chain[k].(drivers := AddTo(chain[k].drivers, d))]
  }

  /** `handleAddDriver`: copies the parts, appends a new part when none has
      the name, then appends the driver to the target part unless it is
      already there. */
  method AddDriver(current: seq<ChainPart>, newChainPart: string, newDriverGroup: string, newDriverName: string)
    returns (next: seq<ChainPart>)
    ensures next == WithDriver(current, newChainPart, newDriverGroup, newDriverName)
  {
    if newChainPart == "" || newDriverGroup == "" || newDriverName == "" {
      return current;
    }
    var idx := FindPart(current, newChainPart);
    next := current;
    if idx.None? {
      next := current + [ChainPart(newChainPart, [])];
    }
    var targetIndex := if idx.None? then |next| - 1 else idx.value;
    var target := next[targetIndex];
    var d := Driver(newDriverName, newDriverGroup);
    var exists_ := d in target.drivers;
    if !exists_ {
      next := next[targetIndex := target.(drivers := target.drivers + [d])];
    }
    if idx.None? {
      assert target.drivers == [] && !exists_;
      assert target.drivers + [d] == [d];
      assert next == current + [ChainPart(newChainPart, [d])];
    }
  }

  /** After adding, the first part with the name holds the driver, every
      other part is unchanged, and the total grows by one exactly when the
      driver was not already in that part. */
  lemma WithDriverEffect(chain: seq<ChainPart>, partName: string, group: string, name: string)
    requires partName != "" && group != "" && name != ""
    ensures var r := WithDriver(chain, partName, group, name);
      var k := FindPart(r, partName);
      k.Some? && Driver(name, group) in r[k.value].drivers &&
      (forall i | 0 <= i < |chain| && i != k.value :: r[i] == chain[i]) &&
      TotalDrivers(r) == TotalDrivers(chain) +
        (if FindPart(chain, partName).Some? && Driver(name, group) in chain[FindPart(chain, partName).value].drivers then 0 else 1)
  {
    var d := Driver(name, group);
    var r := WithDriver(chain, partName, group, name);
    match FindPart(chain, partName) {
      case None =>
        assert r == chain + [ChainPart(partName, [d])];
        assert FindPart(r, partName) == Some(|chain|) by {
          FindPartAppend(chain, ChainPart(partName, [d]));
        }
        TotalDriversAppend(chain, [ChainPart(partName, [d])]);
        assert TotalDrivers([ChainPart(partName, [d])]) == 1;
      case Some(k) =>
        var q := chain[k].(drivers := AddTo(chain[k].drivers, d));
        assert FindPart(r, partName) == Some(k) by {
          FindPartUpdate(chain, k, q);
        }
        TotalDriversUpdate(chain, k, q);
    }
  }

  lemma {:induction false} FindPartAppend(chain: seq<ChainPart>, q: ChainPart)
    requires FindPart(chain, q.name).None?
    ensures FindPart(chain + [q], q.name) == Some(|chain|)
  {
    if chain != [] {
      assert (chain + [q])[1..] == chain[1..] + [q];
      FindPartAppend(chain[1..], q);
    }
  }

  lemma FindPartUpdate(chain: seq<ChainPart>, k: nat, q: ChainPart)
    requires FindPart(chain, q.name) == Some(k)
    ensures FindPart(chain[k := q], q.name) == Some(k)
  {
    var r := chain[k := q];
    assert r[k].name == q.name;
    assert forall i | 0 <= i < k :: r[i].name != q.name by {
      forall i | 0 <= i < k ensures r[i].name != q.name {
        assert r[i] == chain[i];
      }
    }
    match FindPart(r, q.name) {
      case None =>
        assert false;
      case Some(j) =>
        if j < k {
          assert r[j].name != q.name;
        }
    }
  }

  /** Adding the same driver twice is the same as adding it once. */
  lemma WithDriverIdempotent(chain: seq<ChainPart>, partName: string, group: string, name: string)
    ensures var r := WithDriver(chain, partName, group, name);
      WithDriver(r, partName, group, name) == r
  {
    if partName != "" && group != "" && name != "" {
      var d := Driver(name, group);
      var r := WithDriver(chain, partName, group, name);
      var k: nat;
      match FindPart(chain, partName) {
        case None =>
          FindPartAppend(chain, ChainPart(partName, [d]));
          k := |chain|;
        case Some(i) =>
          FindPartUpdate(chain, i, chain[i].(drivers := AddTo(chain[i].drivers, d)));
          k := i;
      }
      assert FindPart(r, partName) == Some(k);
      assert AddTo(r[k].drivers, d) == r[k].drivers;
      assert r[k := r[k].(drivers := r[k].drivers)] == r;
    }
  }

  /** Deleting a driver just added to an existing part undoes the addition
      as far as deletion can tell. */
  lemma AddThenDelete(chain: seq<ChainPart>, partName: string, group: string, name: string)
    requires FindPart(chain, partName).Some?
    ensures DeleteDriver(WithDriver(chain, partName, group, name), partName, group, name)
         == DeleteDriver(chain, partName, group, name)
  {
    if partName != "" && group != "" && name != "" {
      var k := FindPart(chain, partName).value;
      var d := Driver(name, group);
      var keep := (x: Driver) => !(x.group == group && x.driver == name);
      var r := WithDriver(chain, partName, group, name);
      FilterAdded(chain[k].drivers, d, keep);
      var x := DeleteDriver(r, partName, group, name);
      var y := DeleteDriver(chain, partName, group, name);
      assert |x| == |y|;
      forall i | 0 <= i < |x| ensures x[i] == y[i] {
        if i == k {
          assert r[k] == chain[k].(drivers := AddTo(chain[k].drivers, d));
        }
      }
    }
  }

  /** Filtering out a driver just added leaves what filtering gave before. */
  lemma FilterAdded(drivers: seq<Driver>, d: Driver, keep: Driver -> bool)
    requires !keep(d)
    ensures Filter(AddTo(drivers, d), keep) == Filter(drivers, keep)
  {
    if d !in drivers {
      FilterAppend(drivers, [d], keep);
      assert Filter([d], keep) == [] by {
        assert [d][1..] == [];
      }
    }
  }

  // ---------------------------------------------------------------------------
  // Options offered by the dialog

  /** The distinct non-empty strings of `names`, in order of first
      appearance (`Array.from(new Set(...)).filter(Boolean)`). */
  function UniqueNonEmpty(names: seq<string>): (r: seq<string>)
    ensures forall x :: x in r <==> x in names && x != ""
    ensures NoDuplicates(r)
  {
    var d := Distinct(names);
    var r := Filter(d, (x: string) => x != "");
    FilterNoDuplicates(d, (x: string) => x != "");
    r
  }

  lemma FilterNoDuplicates<T(!new)>(s: seq<T>, p: T -> bool)
    requires NoDuplicates(s)
    ensures NoDuplicates(Filter(s, p))
  {
    FilterKeepsOrder(s, p);
    var r := Filter(s, p);
    forall i, j | 0 <= i < j < |r| ensures r[i] != r[j] {
      assert FirstIndex(s, r[i]) < FirstIndex(s, r[j]);
    }
  }

  /** The options are listed in the order in which they first appear. */
  lemma UniqueNonEmptyOrder(names: seq<string>)
    ensures var r := UniqueNonEmpty(names);
      forall i, j | 0 <= i < j < |r| :: FirstIndex(names, r[i]) < FirstIndex(names, r[j])
  {
    var d := Distinct(names);
    var r := UniqueNonEmpty(names);
    FilterKeepsOrder(d, (x: string) => x != "");
    DistinctFirstAppearance(names);
    forall i, j | 0 <= i < j < |r| ensures FirstIndex(names, r[i]) < FirstIndex(names, r[j]) {
      var a, b := FirstIndex(d, r[i]), FirstIndex(d, r[j]);
      assert d[a] == r[i] && d[b] == r[j];
    }
  }

  function PartNames(chain: seq<ChainPart>): seq<string>
  {
    MapSeq(chain, (p: ChainPart) => p.name)
  }

  /** `uniqueChainParts`: the non-empty part names, once each. */
  function UniqueChainParts(chain: seq<ChainPart>): (r: seq<string>)
    ensures forall x :: x in r <==> x != "" && exists p | p in chain :: p.name == x
  {
    var r := UniqueNonEmpty(PartNames(chain));
    assert forall x :: x in PartNames(chain) <==> exists p | p in chain :: p.name == x by {
      forall x ensures x in PartNames(chain) <==> exists p | p in chain :: p.name == x {
        if exists p | p in chain :: p.name == x {
          var p :| p in chain && p.name == x;
          var i :| 0 <= i < |chain| && chain[i] == p;
          assert PartNames(chain)[i] == x;
        }
      }
    }
    r
  }

  /** Every driver of every part, part by part (`flatMap`). */
  function AllDrivers(chain: seq<ChainPart>): (r: seq<Driver>)
    ensures |r| == TotalDrivers(chain)
    ensures forall d :: d in r <==> exists p | p in chain :: d in p.drivers
  {
    if chain == [] then []
    else
      var r := chain[0].drivers + AllDrivers(chain[1..]);
      assert forall p | p in chain :: p == chain[0] || p in chain[1..];
      r
  }

  /** `uniqueDriverGroups`: the non-empty driver groups used in any part,
      once each. */
  function UniqueDriverGroups(chain: seq<ChainPart>): (r: seq<string>)
    ensures forall g :: g in r <==> g != "" && exists p, d | p in chain && d in p.drivers :: d.group == g
  {
    var all := AllDrivers(chain);
    var groups := MapSeq(all, (d: Driver) => d.group);
    var r := UniqueNonEmpty(groups);
    assert forall g :: g in groups <==> exists d | d in all :: d.group == g by {
      forall g ensures g in groups <==> exists d | d in all :: d.group == g {
        if exists d | d in all :: d.group == g {
          var d :| d in all && d.group == g;
          var i :| 0 <= i < |all| && all[i] == d;
          assert groups[i] == g;
        }
      }
    }
    r
  }

  /** The grouping of a part's drivers for display: groups in order of first
      appearance, each holding its drivers in their order in the part. */
  method GroupDrivers(part: ChainPart) returns (groupNames: seq<string>, groups: map<string, seq<Driver>>)
    ensures groupNames == Distinct(MapSeq(part.drivers, (d: Driver) => d.group))
    ensures forall g :: g in groups <==> g in groupNames
    ensures forall g | g in groups :: groups[g] == Members(part.drivers, (d: Driver) => d.group, g)
    ensures forall g, d | g in groups :: d in groups[g] <==> d in part.drivers && d.group == g
  {
    groupNames, groups := GroupBy(part.drivers, (d: Driver) => d.group);
    forall g, d | g in groups ensures d in groups[g] <==> d in part.drivers && d.group == g {
      MembersIn(part.drivers, (d: Driver) => d.group, g, d);
    }
  }

  /** The display groups partition the part's drivers. */
  lemma GroupDriversPartition(part: ChainPart)
    ensures GroupSizes(Distinct(MapSeq(part.drivers, (d: Driver) => d.group)), part.drivers, (d: Driver) => d.group)
         == |part.drivers|
  {
    GroupsPartition(part.drivers, (d: Driver) => d.group);
  }
}
