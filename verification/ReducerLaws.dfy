/** What the reducer's documentation claims: receiving more never takes anything
    away.  Counts are kept per item name, so the claim needs the counted names to
    be unique in the item table. */
module ReducerLaws {
  import opened OrderedDict
  import opened Gates
  import opened Reducer

  ghost predicate UniqueName(seed: Seed, name: string) {
    forall a, b :: Named(seed, a, name) && Named(seed, b, name) ==> a == b
  }

  ghost predicate MoneyNamesUnique(seed: Seed) {
    forall name :: PackValue(name) > 0 ==> UniqueName(seed, name)
  }

  /** The names whose number of copies matters: money packs, the garage slot, and
      what some gate counts. */
  ghost predicate CountedNamesUnique(seed: Seed) {
    && MoneyNamesUnique(seed) && UniqueName(seed, SLOT_ITEM)
    && forall g, i :: 0 <= g < |seed.gates| && 0 <= i < |seed.gates[g].requiredCounts| ==>
         UniqueName(seed, seed.gates[g].requiredCounts[i].0)
  }

  /** Every item keeps its instances and may gain more, in any order. */
  ghost predicate Grows(a: Instances, b: Instances) {
    && Distinct(a) && Distinct(b)
    && forall i :: 0 <= i < |a| ==> Find(b, a[i].0).Some? && a[i].1 <= Find(b, a[i].0).value
  }

  lemma {:induction false} CountUnique(seed: Seed, inst: Instances, id: int, name: string)
    requires UniqueName(seed, name) && Named(seed, id, name)
    ensures CountOf(seed, inst, name) == if Find(inst, id).Some? then |Find(inst, id).value| else 0
  {
    if inst != [] {
      CountUnique(seed, inst[..|inst| - 1], id, name);
    }
  }

  lemma SubsetSize<T>(a: set<T>, b: set<T>)
    requires a <= b
    ensures |a| <= |b|
  {
    if a != {} {
      var x :| x in a;
      SubsetSize(a - {x}, b - {x});
    }
  }

  lemma CountMonotone(seed: Seed, a: Instances, b: Instances, name: string)
    requires Grows(a, b) && UniqueName(seed, name)
    ensures CountOf(seed, a, name) <= CountOf(seed, b, name)
  {
    if Owned(seed, a, name) {
      var i :| 0 <= i < |a| && Named(seed, a[i].0, name);
      CountUnique(seed, a, a[i].0, name);
      CountUnique(seed, b, a[i].0, name);
      FindAt(a, i);
      SubsetSize(a[i].1, Find(b, a[i].0).value);
    } else {
      CountNotOwned(seed, a, name);
    }
  }

  lemma OwnedMonotone(seed: Seed, a: Instances, b: Instances, name: string)
    requires Grows(a, b) && Owned(seed, a, name)
    ensures Owned(seed, b, name)
  {
    var i :| 0 <= i < |a| && Named(seed, a[i].0, name);
    FindSome(b, a[i].0);
    var j :| 0 <= j < |b| && b[j] == (a[i].0, Find(b, a[i].0).value);
    assert Named(seed, b[j].0, name);
  }

  lemma OwnedNamesMonotone(seed: Seed, a: Instances, b: Instances)
    requires Grows(a, b)
    ensures OwnedNames(seed, a) <= OwnedNames(seed, b)
  {
    hide Owned;
    forall name | name in OwnedNames(seed, a)
      ensures name in OwnedNames(seed, b)
    {
      OwnedMonotone(seed, a, b, name);
    }
  }

  lemma {:induction false} GrantsAt(seed: Seed, inst: Instances, vehicle: string, index: int)
    ensures Grant(vehicle, index) in GrantsOf(seed, inst)
            <==> exists i :: 0 <= i < |inst| && Grants(seed, inst[i].0) && GrantedVehicle(seed, inst[i].0) == vehicle
                             && index in inst[i].1
  {
    hide Grants, GrantedVehicle;
    if inst != [] {
      var n := |inst| - 1;
      GrantsAt(seed, inst[..n], vehicle, index);
      assert inst[n] == (inst[n].0, inst[n].1);
    }
  }

  lemma GrantsMonotone(seed: Seed, a: Instances, b: Instances)
    requires Grows(a, b)
    ensures GrantsOf(seed, a) <= GrantsOf(seed, b)
  {
    hide GrantsOf, Grants, GrantedVehicle;
    forall g | g in GrantsOf(seed, a)
      ensures g in GrantsOf(seed, b)
    {
      GrantsAt(seed, a, g.vehicle, g.index);
      GrantsAt(seed, b, g.vehicle, g.index);
      var i :| 0 <= i < |a| && Grants(seed, a[i].0) && GrantedVehicle(seed, a[i].0) == g.vehicle && g.index in a[i].1;
      FindSome(b, a[i].0);
      var j :| 0 <= j < |b| && b[j] == (a[i].0, Find(b, a[i].0).value);
      assert g.index in b[j].1;
    }
  }

  lemma {:induction false} UnlocksMonotone(seed: Seed, gates: seq<Gate>, a: Instances, b: Instances,
                                           checked: set<LocationId>, checked': set<LocationId>)
    requires Grows(a, b) && checked <= checked' && gates <= seed.gates && CountedNamesUnique(seed)
    ensures Unlocks(seed, gates, OwnedNames(seed, a), Counts(seed, a), checked)
            <= Unlocks(seed, gates, OwnedNames(seed, b), Counts(seed, b), checked')
  {
    if gates != [] {
      hide UnlockOf, Passes, OwnedNames, Counts, CountOf;
      var n := |gates| - 1;
      UnlocksMonotone(seed, gates[..n], a, b, checked, checked');
      var g := gates[n];
      assert g == seed.gates[n];
      if Passes(g, OwnedNames(seed, a), Counts(seed, a), seed.locationTable, checked) {
        OwnedNamesMonotone(seed, a, b);
        forall i | 0 <= i < |g.requiredCounts|
          ensures CountIn(Counts(seed, a), g.requiredCounts[i].0) <= CountIn(Counts(seed, b), g.requiredCounts[i].0)
        {
          CountMonotone(seed, a, b, g.requiredCounts[i].0);
        }
        GateMonotone(g, OwnedNames(seed, a), Counts(seed, a), checked, OwnedNames(seed, b), Counts(seed, b), checked',
                     seed.locationTable);
      }
    }
  }

  lemma MoneyMonotone(seed: Seed, a: Instances, b: Instances)
    requires Grows(a, b) && MoneyNamesUnique(seed)
    ensures Money(seed, a) <= Money(seed, b)
  {
    hide CountOf, Grows, UniqueName;
    PacksDiffer();
    CountMonotone(seed, a, b, PACK_500);
    CountMonotone(seed, a, b, PACK_1000);
    CountMonotone(seed, a, b, PACK_5000);
    CountMonotone(seed, a, b, PACK_10000);
    CountMonotone(seed, a, b, PACK_50000);
  }

  /** Nothing that was open, granted or complete is taken back. */
  ghost predicate AtLeast(d: Desired, d': Desired) {
    && d.checked <= d'.checked && d.unlocks <= d'.unlocks && d.grants <= d'.grants && d.tiers <= d'.tiers
    && d.money <= d'.money && d.garageSlots <= d'.garageSlots && (d.goalCompleted ==> d'.goalCompleted)
  }

  /** Monotonicity of the whole reducer. */
  lemma ReduceMonotone(seed: Seed, cs: ClientState, cs': ClientState)
    requires CountedNamesUnique(seed) && Grows(cs.instances, cs'.instances) && cs.checked <= cs'.checked
    ensures AtLeast(Reduce(seed, cs), Reduce(seed, cs'))
    ensures 30 <= Reduce(seed, cs).garageSlots <= 60
  {
    hide Unlocks, GrantsOf, Money, OwnedNames, Counts, CountOf, Find, Passes;
    var a, b := cs.instances, cs'.instances;
    OwnedNamesMonotone(seed, a, b);
    UnlocksMonotone(seed, seed.gates, a, b, cs.checked, cs'.checked);
    GrantsMonotone(seed, a, b);
    MoneyMonotone(seed, a, b);
    CountMonotone(seed, a, b, SLOT_ITEM);
    assert Logos(seed, cs.checked) <= Logos(seed, cs'.checked);
    SubsetSize(Logos(seed, cs.checked), Logos(seed, cs'.checked));
  }

  // ---- When names are shared ---------------------------------------------

  /** Two copies of item a, then one copy of item b of the same name. */
  lemma SharedNameCounts(seed: Seed, a: int, b: int, name: string)
    requires a != b && Named(seed, a, name) && Named(seed, b, name)
    ensures var two: Instances := [(a, {0, 1})];
            var three: Instances := [(a, {0, 1}), (b, {2})];
            && Grows(two, three)
            && (forall n :: CountOf(seed, two, n) == if n == name then 2 else 0)
            && (forall n :: CountOf(seed, three, n) == if n == name then 1 else 0)
  {
    var two: Instances := [(a, {0, 1})];
    var three: Instances := [(a, {0, 1}), (b, {2})];
    assert three[..1] == two && two[..0] == [];
    assert |{0, 1}| == 2;
    forall n
      ensures CountOf(seed, two, n) == if n == name then 2 else 0
      ensures CountOf(seed, three, n) == if n == name then 1 else 0
    {
      assert CountOf(seed, two[..0], n) == 0;
    }
  }

  /** The money total never shrinks, for every inventory, exactly when no two
      items share the name of a money pack. */
  lemma MoneyMonotoneIff(seed: Seed)
    ensures MoneyNamesUnique(seed)
            <==> forall a: Instances, b: Instances :: Grows(a, b) ==> Money(seed, a) <= Money(seed, b)
  {
    if MoneyNamesUnique(seed) {
      forall a: Instances, b: Instances | Grows(a, b)
        ensures Money(seed, a) <= Money(seed, b)
      {
        MoneyMonotone(seed, a, b);
      }
    } else {
      var name :| PackValue(name) > 0 && !UniqueName(seed, name);
      var a, b :| Named(seed, a, name) && Named(seed, b, name) && a != b;
      SharedNameCounts(seed, a, b, name);
      var two: Instances := [(a, {0, 1})];
      var three: Instances := [(a, {0, 1}), (b, {2})];
      hide CountOf;
      PacksDiffer();
      assert Money(seed, two) == 2 * PackValue(name) && Money(seed, three) == PackValue(name);
      assert Grows(two, three) && Money(seed, two) > Money(seed, three);
    }
  }

  /** The garage limit never shrinks, for every inventory, exactly when no two items
      share the slot item's name. */
  lemma GarageMonotoneIff(seed: Seed)
    ensures UniqueName(seed, SLOT_ITEM)
            <==> forall a: Instances, b: Instances :: Grows(a, b) ==> GarageSlots(seed, a) <= GarageSlots(seed, b)
  {
    if UniqueName(seed, SLOT_ITEM) {
      forall a: Instances, b: Instances | Grows(a, b)
        ensures GarageSlots(seed, a) <= GarageSlots(seed, b)
      {
        CountMonotone(seed, a, b, SLOT_ITEM);
      }
    } else {
      var a, b :| Named(seed, a, SLOT_ITEM) && Named(seed, b, SLOT_ITEM) && a != b;
      SharedNameCounts(seed, a, b, SLOT_ITEM);
      var two: Instances := [(a, {0, 1})];
      var three: Instances := [(a, {0, 1}), (b, {2})];
      hide CountOf;
      assert Grows(two, three) && GarageSlots(seed, two) > GarageSlots(seed, three);
    }
  }
}
