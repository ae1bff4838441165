/** The item log: received one by one or reset in one go
    (`apply_received_item`, `apply_location_checked` and
    `apply_full_inventory_reset` of client/mc3ap/domain/reducer.py). */
module ItemLog {
  import opened OrderedDict
  import opened Gates
  import opened Reducer
  import opened ReducerLaws
  import opened Options

  function AddInstance(inst: Instances, id: int, index: int): Instances {
    Put(inst, id, (if Find(inst, id).Some? then Find(inst, id).value else {}) + {index})
  }

  function ApplyReceivedItem(cs: ClientState, index: int, id: int): ClientState {
    cs.(received := Put(cs.received, index, id), instances := AddInstance(cs.instances, id, index))
  }

  function ApplyLocationChecked(cs: ClientState, location: LocationId): ClientState {
    cs.(checked := cs.checked + {location})
  }

  /** The instance sets of a whole log. */
  function Grouped(log: Dict<int, int>): Instances {
    if log == [] then [] else AddInstance(Grouped(log[..|log| - 1]), log[|log| - 1].1, log[|log| - 1].0)
  }

  method ApplyFullInventoryReset(received: Dict<int, int>) returns (cs: ClientState)
    ensures cs == ClientState(received, Grouped(received), {}, false, 0)
  {
    var instances: Instances := [];
    for i := 0 to |received|
      invariant instances == Grouped(received[..i])
    {
      assert received[..i + 1][..i] == received[..i];
      instances := AddInstance(instances, received[i].1, received[i].0);
    }
    assert received[..|received|] == received;
    cs := ClientState(received, instances, {}, false, 0);
  }

  /** Receiving a log item by item, from nothing. */
  function Incremental(log: Dict<int, int>): ClientState {
    if log == [] then EMPTY_STATE
    else ApplyReceivedItem(Incremental(log[..|log| - 1]), log[|log| - 1].0, log[|log| - 1].1)
  }

  /** Item by item or in one go: the same state, even to the order of its dicts. */
  lemma {:induction false} IncrementalIsBatch(log: Dict<int, int>)
    requires Distinct(log)
    ensures Incremental(log) == ClientState(log, Grouped(log), {}, false, 0)
  {
    if log != [] {
      var n := |log| - 1;
      IncrementalIsBatch(log[..n]);
      FindNone(log[..n], log[n].0);
      PutKeys(log[..n], log[n].0, log[n].1);
      assert log == log[..n] + [(log[n].0, log[n].1)];
    }
  }

  // ---- The two dictionaries are inverse ----------------------------------

  ghost predicate HasInstance(inst: Instances, id: int, index: int) {
    Find(inst, id).Some? && index in Find(inst, id).value
  }

  ghost predicate Inverse(cs: ClientState) {
    && Distinct(cs.received) && Distinct(cs.instances)
    && forall index, id :: Find(cs.received, index) == Some(id) <==> HasInstance(cs.instances, id, index)
  }

  lemma AddInstanceAt(inst: Instances, id: int, index: int, id': int, index': int)
    ensures HasInstance(AddInstance(inst, id, index), id', index')
            <==> HasInstance(inst, id', index') || (id' == id && index' == index)
  {
    PutFind(inst, id, (if Find(inst, id).Some? then Find(inst, id).value else {}) + {index}, id');
  }

  /** Receiving an item keeps the dictionaries inverse exactly when its index is
      new or comes again with the same item. */
  lemma ReceiveKeepsInverseIff(cs: ClientState, index: int, id: int)
    requires Inverse(cs)
    ensures Inverse(ApplyReceivedItem(cs, index, id))
            <==> Find(cs.received, index).None? || Find(cs.received, index) == Some(id)
  {
    hide HasInstance, AddInstance;
    var t := ApplyReceivedItem(cs, index, id);
    assert t.instances == AddInstance(cs.instances, id, index);
    PutDistinct(cs.received, index, id);
    AddInstanceDistinct(cs.instances, id, index);
    forall index', id'
      ensures Find(t.received, index') == Some(id')
              <==> if index' == index then id' == id else Find(cs.received, index') == Some(id')
      ensures HasInstance(t.instances, id', index')
              <==> HasInstance(cs.instances, id', index') || (id' == id && index' == index)
    {
      PutFind(cs.received, index, id, index');
      AddInstanceAt(cs.instances, id, index, id', index');
    }
    if Find(cs.received, index).Some? && Find(cs.received, index) != Some(id) {
      var other := Find(cs.received, index).value;
      assert HasInstance(t.instances, other, index);
      assert Find(t.received, index) != Some(other);
    }
  }

  lemma AddInstanceDistinct(inst: Instances, id: int, index: int)
    requires Distinct(inst)
    ensures Distinct(AddInstance(inst, id, index))
  {
    PutDistinct(inst, id, (if Find(inst, id).Some? then Find(inst, id).value else {}) + {index});
  }

  /** Replaying a known item changes nothing at all. */
  lemma ReplayIsIdempotent(cs: ClientState, index: int, id: int)
    requires Inverse(cs) && Find(cs.received, index) == Some(id)
    ensures ApplyReceivedItem(cs, index, id) == cs
  {
    assert HasInstance(cs.instances, id, index);
    PutSame(cs.received, index, id);
    assert Find(cs.instances, id).value + {index} == Find(cs.instances, id).value;
    PutSame(cs.instances, id, Find(cs.instances, id).value);
  }

  lemma {:induction false} LogIsInverse(log: Dict<int, int>)
    requires Distinct(log)
    ensures Inverse(ClientState(log, Grouped(log), {}, false, 0))
  {
    if log != [] {
      hide Inverse;
      var n := |log| - 1;
      LogIsInverse(log[..n]);
      IncrementalIsBatch(log[..n]);
      IncrementalIsBatch(log);
      FindNone(log[..n], log[n].0);
      ReceiveKeepsInverseIff(Incremental(log[..n]), log[n].0, log[n].1);
    }
  }

  // ---- Reduced values as sums over the log -------------------------------

  function LogMoney(seed: Seed, log: Dict<int, int>): nat {
    if log == [] then 0
    else LogMoney(seed, log[..|log| - 1])
         + if log[|log| - 1].1 in seed.itemTable then PackValue(seed.itemTable[log[|log| - 1].1]) else 0
  }

  /** One more instance raises the count of its own name by one, no other. */
  lemma CountAfterAdd(seed: Seed, inst: Instances, id: int, index: int, name: string)
    requires UniqueName(seed, name) && !HasInstance(inst, id, index)
    ensures CountOf(seed, AddInstance(inst, id, index), name)
            == CountOf(seed, inst, name) + if Named(seed, id, name) then 1 else 0
  {
    var indices := (if Find(inst, id).Some? then Find(inst, id).value else {}) + {index};
    var inst' := Put(inst, id, indices);
    if other :| Named(seed, other, name) {
      PutFind(inst, id, indices, other);
      CountUnique(seed, inst, other, name);
      CountUnique(seed, inst', other, name);
    } else {
      CountNotOwned(seed, inst, name);
      CountNotOwned(seed, inst', name);
    }
  }

  lemma MoneyAfterAdd(seed: Seed, inst: Instances, id: int, index: int)
    requires MoneyNamesUnique(seed) && !HasInstance(inst, id, index)
    ensures Money(seed, AddInstance(inst, id, index))
            == Money(seed, inst) + if id in seed.itemTable then PackValue(seed.itemTable[id]) else 0
  {
    hide CountOf, AddInstance, HasInstance, UniqueName;
    PacksDiffer();
    CountAfterAdd(seed, inst, id, index, PACK_500);
    CountAfterAdd(seed, inst, id, index, PACK_1000);
    CountAfterAdd(seed, inst, id, index, PACK_5000);
    CountAfterAdd(seed, inst, id, index, PACK_10000);
    CountAfterAdd(seed, inst, id, index, PACK_50000);
  }

  /** With distinct money names, the money of a log is the sum over its indexes. */
  lemma {:induction false} MoneyIsSum(seed: Seed, log: Dict<int, int>)
    requires Distinct(log) && MoneyNamesUnique(seed)
    ensures Money(seed, Incremental(log).instances) == LogMoney(seed, log)
  {
    IncrementalIsBatch(log);
    if log == [] {
      assert forall name :: CountOf(seed, [], name) == 0;
    } else {
      hide Money, PackValue, MoneyNamesUnique;
      var n := |log| - 1;
      MoneyIsSum(seed, log[..n]);
      IncrementalIsBatch(log[..n]);
      NewIndex(log, log[n].1);
      MoneyAfterAdd(seed, Grouped(log[..n]), log[n].1, log[n].0);
    }
  }

  lemma NewIndex(log: Dict<int, int>, id: int)
    requires Distinct(log) && log != []
    ensures !HasInstance(Grouped(log[..|log| - 1]), id, log[|log| - 1].0)
  {
    var n := |log| - 1;
    LogIsInverse(log[..n]);
    FindNone(log[..n], log[n].0);
    var cs := ClientState(log[..n], Grouped(log[..n]), {}, false, 0);
    assert Find(cs.received, log[n].0) == Some(id) <==> HasInstance(cs.instances, id, log[n].0);
  }

  function GrantingItems(seed: Seed, log: Dict<int, int>): nat {
    if log == [] then 0
    else GrantingItems(seed, log[..|log| - 1]) + if Grants(seed, log[|log| - 1].1) then 1 else 0
  }

  /** Every granting index gives exactly one grant, of its own vehicle. */
  lemma {:induction false} OneGrantPerIndex(seed: Seed, log: Dict<int, int>)
    requires Distinct(log)
    ensures |GrantsOf(seed, Grouped(log))| == GrantingItems(seed, log)
    ensures forall vehicle, index :: Grant(vehicle, index) in GrantsOf(seed, Grouped(log)) <==>
              exists id :: HasInstance(Grouped(log), id, index) && Grants(seed, id)
                           && GrantedVehicle(seed, id) == vehicle
  {
    hide Grants, GrantedVehicle, GrantsOf;
    forall vehicle, index
      ensures Grant(vehicle, index) in GrantsOf(seed, Grouped(log)) <==>
              exists id :: HasInstance(Grouped(log), id, index) && Grants(seed, id)
                           && GrantedVehicle(seed, id) == vehicle
    {
      GrantByInstance(seed, log, vehicle, index);
    }
    if log == [] {
      assert GrantsOf(seed, []) == {} by { NoGrants(seed); }
    } else {
      OneGrantPerIndex(seed, log[..|log| - 1]);
      GrantsAfterAdd(seed, log);
    }
  }

  lemma NoGrants(seed: Seed)
    ensures GrantsOf(seed, []) == {}
  {}

  lemma GrantsAfterAdd(seed: Seed, log: Dict<int, int>)
    requires Distinct(log) && log != []
    ensures var n := |log| - 1;
            |GrantsOf(seed, Grouped(log))|
            == |GrantsOf(seed, Grouped(log[..n]))| + if Grants(seed, log[n].1) then 1 else 0
  {
    hide Grants, GrantedVehicle, GrantsOf, Grouped;
    var n := |log| - 1;
    var (index, id) := log[n];
    var before, after := GrantsOf(seed, Grouped(log[..n])), GrantsOf(seed, Grouped(log));
    forall g: Grant
      ensures g in after
              <==> g in before || (Grants(seed, id) && GrantedVehicle(seed, id) == g.vehicle && g.index == index)
    {
      GrantAfterAdd(seed, log, g.vehicle, g.index);
    }
    if Grants(seed, id) {
      var g := Grant(GrantedVehicle(seed, id), index);
      assert after == before + {g};
      GrantByInstance(seed, log[..n], g.vehicle, index);
      if other :| HasInstance(Grouped(log[..n]), other, index) {
        NewIndex(log, other);
      }
      assert g !in before;
    } else {
      assert after == before;
    }
  }

  lemma GrantByInstance(seed: Seed, log: Dict<int, int>, vehicle: string, index: int)
    requires Distinct(log)
    ensures Grant(vehicle, index) in GrantsOf(seed, Grouped(log)) <==>
            exists id :: HasInstance(Grouped(log), id, index) && Grants(seed, id) && GrantedVehicle(seed, id) == vehicle
  {
    hide Grants, GrantedVehicle, GrantsOf;
    var inst := Grouped(log);
    LogIsInverse(log);
    GrantsAt(seed, inst, vehicle, index);
    if i :| 0 <= i < |inst| && Grants(seed, inst[i].0) && GrantedVehicle(seed, inst[i].0) == vehicle
            && index in inst[i].1 {
      FindAt(inst, i);
      assert HasInstance(inst, inst[i].0, index);
    }
    if id :| HasInstance(inst, id, index) && Grants(seed, id) && GrantedVehicle(seed, id) == vehicle {
      FindSome(inst, id);
      var i :| 0 <= i < |inst| && inst[i] == (id, Find(inst, id).value);
    }
  }

  lemma GrantAfterAdd(seed: Seed, log: Dict<int, int>, vehicle: string, i: int)
    requires Distinct(log) && log != []
    ensures var n := |log| - 1;
            var (index, id) := log[n];
            Grant(vehicle, i) in GrantsOf(seed, Grouped(log)) <==>
            Grant(vehicle, i) in GrantsOf(seed, Grouped(log[..n]))
            || (Grants(seed, id) && GrantedVehicle(seed, id) == vehicle && i == index)
  {
    hide Grants, GrantedVehicle, GrantsOf, HasInstance, AddInstance;
    var n := |log| - 1;
    var (index, id) := log[n];
    GrantByInstance(seed, log, vehicle, i);
    GrantByInstance(seed, log[..n], vehicle, i);
    forall id'
      ensures HasInstance(Grouped(log), id', i) <==> HasInstance(Grouped(log[..n]), id', i) || (id' == id && i == index)
    {
      AddInstanceAt(Grouped(log[..n]), id, index, id', i);
    }
  }

  // ---- Order of arrival --------------------------------------------------

  /** Two logs with the same entries, in any orders. */
  ghost predicate SameEntries(a: Dict<int, int>, b: Dict<int, int>) {
    forall index :: Find(a, index) == Find(b, index)
  }

  lemma NoElements(s: set<int>)
    ensures (forall x :: x !in s) ==> s == {}
  {
    if forall x :: x !in s {
      assert s == {};
    }
  }

  lemma SameEntriesGrow(a: Dict<int, int>, b: Dict<int, int>)
    requires Distinct(a) && Distinct(b) && SameEntries(a, b)
    ensures Grows(Grouped(a), Grouped(b))
  {
    hide Grouped;
    LogIsInverse(a);
    LogIsInverse(b);
    GroupedNonEmpty(a);
    var ca, cb := ClientState(a, Grouped(a), {}, false, 0), ClientState(b, Grouped(b), {}, false, 0);
    forall i | 0 <= i < |Grouped(a)|
      ensures Find(Grouped(b), Grouped(a)[i].0).Some?
      ensures Grouped(a)[i].1 <= Find(Grouped(b), Grouped(a)[i].0).value
    {
      FindAt(Grouped(a), i);
      var id, indices := Grouped(a)[i].0, Grouped(a)[i].1;
      forall index | index in indices
        ensures Find(Grouped(b), id).Some? && index in Find(Grouped(b), id).value
      {
        assert HasInstance(ca.instances, id, index);
        assert Find(ca.received, index) == Some(id) && Find(cb.received, index) == Some(id);
        assert HasInstance(cb.instances, id, index);
      }
      NoElements(indices);
    }
  }

  lemma {:induction false} GroupedNonEmpty(log: Dict<int, int>)
    ensures forall i :: 0 <= i < |Grouped(log)| ==> Grouped(log)[i].1 != {}
  {
    if log != [] {
      var n := |log| - 1;
      GroupedNonEmpty(log[..n]);
      PutNonEmpty(Grouped(log[..n]), log[n].1,
                  (if Find(Grouped(log[..n]), log[n].1).Some? then Find(Grouped(log[..n]), log[n].1).value else {})
                  + {log[n].0});
    }
  }

  lemma {:induction false} PutNonEmpty(inst: Instances, id: int, indices: set<int>)
    requires indices != {} && forall i :: 0 <= i < |inst| ==> inst[i].1 != {}
    ensures forall i :: 0 <= i < |Put(inst, id, indices)| ==> Put(inst, id, indices)[i].1 != {}
  {
    if inst != [] && inst[|inst| - 1].0 != id {
      PutNonEmpty(inst[..|inst| - 1], id, indices);
    }
  }

  /** With unique counted names the order of arrival does not matter to the game. */
  lemma ArrivalOrderIrrelevant(seed: Seed, a: Dict<int, int>, b: Dict<int, int>, checked: set<LocationId>)
    requires Distinct(a) && Distinct(b) && SameEntries(a, b) && CountedNamesUnique(seed)
    ensures Reduce(seed, Incremental(a).(checked := checked)) == Reduce(seed, Incremental(b).(checked := checked))
  {
    hide Reduce, Grows;
    IncrementalIsBatch(a);
    IncrementalIsBatch(b);
    SameEntriesGrow(a, b);
    SameEntriesGrow(b, a);
    ReduceMonotone(seed, Incremental(a).(checked := checked), Incremental(b).(checked := checked));
    ReduceMonotone(seed, Incremental(b).(checked := checked), Incremental(a).(checked := checked));
  }
}
