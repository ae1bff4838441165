/** The reducer of client/mc3ap/domain/reducer.py: what the client remembers, and
    the game state it calls for. */
module Reducer {
  import opened OrderedDict
  import opened Gates
  import opened Text
  import opened Options

  datatype Goal = Goal(itemName: string, requiredLocations: seq<string>)

  /** The parts of the seed contract the reducer reads. */
  datatype Seed = Seed(itemTable: map<int, string>, locationTable: LocationTable, gates: seq<Gate>, goal: Goal,
                       collectibleRandomization: bool)

  type Instances = Dict<int, set<int>>

  datatype ClientState = ClientState(received: Dict<int, int>, instances: Instances, checked: set<LocationId>,
                                     goalSent: bool, moneyApplied: int)

  const EMPTY_STATE: ClientState := ClientState([], [], {}, false, 0)

  /** The eight `allowed_...` sets, as one set of tagged ids. */
  datatype Unlock =
    | City(name: string) | Race(name: string) | VehicleClass(name: string) | VehicleCategory(name: string)
    | Vehicle(name: string) | Ability(name: string) | PartCategory(name: string) | Part(name: string)

  /** "<vehicle>#<index>" */
  datatype Grant = Grant(vehicle: string, index: int)

  datatype Desired = Desired(checked: set<LocationId>, unlocks: set<Unlock>, grants: set<Grant>, money: nat,
                             garageSlots: nat, tiers: set<string>, goalCompleted: bool)

  // ---- Owned items -------------------------------------------------------

  predicate Named(seed: Seed, id: int, name: string) {
    id in seed.itemTable && seed.itemTable[id] == name
  }

  /** Some instance entry, even an empty one, has an item of this name. */
  predicate Owned(seed: Seed, inst: Instances, name: string) {
    exists i :: 0 <= i < |inst| && Named(seed, inst[i].0, name)
  }

  /** `item_counts`: the last entry with this name decides. */
  function CountOf(seed: Seed, inst: Instances, name: string): nat {
    if inst == [] then 0
    else if Named(seed, inst[|inst| - 1].0, name) then |inst[|inst| - 1].1|
    else CountOf(seed, inst[..|inst| - 1], name)
  }

  // ---- Reduced values ----------------------------------------------------

  const LOGO: string := "logo_collected"

  function Logos(seed: Seed, checked: set<LocationId>): set<LocationId> {
    set id | id in checked && Find(seed.locationTable, id).Some?
             && Contains(Lower(Find(seed.locationTable, id).value), LOGO)
  }

  predicate TierReached(seed: Seed, owned: set<string>, logos: nat, tier: string, threshold: nat) {
    logos >= threshold && (tier in owned || !seed.collectibleRandomization)
  }

  function Tiers(seed: Seed, owned: set<string>, logos: nat): set<string> {
    (if TierReached(seed, owned, logos, "12_logos", 12) then {"12_logos"} else {})
    + (if TierReached(seed, owned, logos, "24_logos", 24) then {"24_logos"} else {})
    + (if TierReached(seed, owned, logos, "36_logos", 36) then {"36_logos"} else {})
  }

  const PACK_500: string := "Money Pack: $500"
  const PACK_1000: string := "Money Pack: $1,000"
  const PACK_5000: string := "Money Pack: $5,000"
  const PACK_10000: string := "Money Pack: $10,000"
  const PACK_50000: string := "Money Pack: $50,000"
  const SLOT_ITEM: string := "Progressive Garage Slot"

  function PackValue(name: string): nat {
    if name == PACK_500 then 500
    else if name == PACK_1000 then 1000
    else if name == PACK_5000 then 5000
    else if name == PACK_10000 then 10000
    else if name == PACK_50000 then 50000
    else 0
  }

  function Money(seed: Seed, inst: Instances): nat {
    500 * CountOf(seed, inst, PACK_500) + 1000 * CountOf(seed, inst, PACK_1000) + 5000 * CountOf(seed, inst, PACK_5000)
    + 10000 * CountOf(seed, inst, PACK_10000) + 50000 * CountOf(seed, inst, PACK_50000)
  }

  function GarageSlots(seed: Seed, inst: Instances): nat {
    if 30 + CountOf(seed, inst, SLOT_ITEM) < 60 then 30 + CountOf(seed, inst, SLOT_ITEM) else 60
  }

  predicate GoalCompleted(seed: Seed, owned: set<string>, checked: set<LocationId>) {
    if seed.goal.itemName != "" && seed.goal.itemName in owned then true
    else if seed.goal.requiredLocations != [] then
      forall i :: 0 <= i < |seed.goal.requiredLocations| ==>
        LocIdFromName(seed.locationTable, seed.goal.requiredLocations[i]).None?
        || LocIdFromName(seed.locationTable, seed.goal.requiredLocations[i]).value in checked
    else false
  }

  /** What a passed gate unlocks, read off its description. */
  function UnlockOf(description: string): set<Unlock> {
    var desc := Lower(description);
    if Contains(desc, "city permit:") then
      {City(Lower(Underscored(Strip(AfterLast(desc, "city permit:")))))}
    else if Contains(desc, "event permit:") then
      {Race(Strip(AfterLast(desc, "event permit:")))}
    else if Contains(desc, "vehicle class license:") then
      {VehicleClass(Upper(Strip(AfterLast(desc, "vehicle class license:"))))}
    else if Contains(desc, "vehicle category permit:") then
      {VehicleCategory(Lower(Strip(AfterLast(desc, "vehicle category permit:"))))}
    else if Contains(desc, "vehicle permit:") then
      {Vehicle(Underscored(Lower(Strip(AfterLast(desc, "vehicle permit:")))))}
    else if Contains(desc, "ability permit:") then
      {Ability(Lower(Strip(AfterLast(desc, "ability permit:"))))}
    else if Contains(desc, "part category permit:") then
      {PartCategory(Lower(Strip(AfterLast(desc, "part category permit:"))))}
    else if Contains(desc, "part permit:") then
      {Part(Strip(AfterLast(desc, "part permit:")))}
    else {}
  }

  function Unlocks(seed: Seed, gates: seq<Gate>, owned: set<string>, counts: map<string, nat>,
                   checked: set<LocationId>): set<Unlock> {
    if gates == [] then {}
    else
      var g := gates[|gates| - 1];
      Unlocks(seed, gates[..|gates| - 1], owned, counts, checked)
      + if Passes(g, owned, counts, seed.locationTable, checked) then UnlockOf(g.description) else {}
  }

  const GRANT_PREFIX: string := "Vehicle Grant:"

  predicate Grants(seed: Seed, id: int) {
    id in seed.itemTable && Contains(seed.itemTable[id], GRANT_PREFIX)
  }

  function GrantedVehicle(seed: Seed, id: int): string
    requires Grants(seed, id)
  {
    Underscored(Lower(Strip(AfterLast(seed.itemTable[id], GRANT_PREFIX))))
  }

  function GrantsOf(seed: Seed, inst: Instances): set<Grant> {
    if inst == [] then {}
    else
      var (id, indices) := inst[|inst| - 1];
      GrantsOf(seed, inst[..|inst| - 1])
      + if Grants(seed, id) then set i | i in indices :: Grant(GrantedVehicle(seed, id), i) else {}
  }

  /** The names and counts the first loop builds. */
  function OwnedNames(seed: Seed, inst: Instances): (owned: set<string>)
    ensures forall name :: name in owned <==> Owned(seed, inst, name)
  {
    set i | 0 <= i < |inst| && inst[i].0 in seed.itemTable :: seed.itemTable[inst[i].0]
  }

  function Counts(seed: Seed, inst: Instances): (counts: map<string, nat>)
    ensures forall name :: CountIn(counts, name) == CountOf(seed, inst, name)
  {
    var counts := map name | name in OwnedNames(seed, inst) :: CountOf(seed, inst, name);
    assert forall name :: CountIn(counts, name) == CountOf(seed, inst, name) by {
      forall name
        ensures CountIn(counts, name) == CountOf(seed, inst, name)
      {
        CountNotOwned(seed, inst, name);
      }
    }
    counts
  }

  lemma {:induction false} CountNotOwned(seed: Seed, inst: Instances, name: string)
    ensures !Owned(seed, inst, name) ==> CountOf(seed, inst, name) == 0
  {
    if inst != [] {
      CountNotOwned(seed, inst[..|inst| - 1], name);
      OwnedSnoc(seed, inst[..|inst| - 1], inst[|inst| - 1], name);
      assert inst == inst[..|inst| - 1] + [inst[|inst| - 1]];
    }
  }

  lemma OwnedSnoc(seed: Seed, inst: Instances, e: (int, set<int>), name: string)
    ensures Owned(seed, inst + [e], name) <==> Owned(seed, inst, name) || Named(seed, e.0, name)
  {
    var all := inst + [e];
    if Owned(seed, inst, name) {
      var i :| 0 <= i < |inst| && Named(seed, inst[i].0, name);
      assert all[i] == inst[i];
    }
    if Named(seed, e.0, name) {
      assert all[|inst|] == e;
    }
  }

  lemma NothingOwned(seed: Seed, inst: Instances)
    requires inst == []
    ensures forall name :: !Owned(seed, inst, name)
  {}

  /** `reduce_desired_state`, less the hash and the seed fields passed through. */
  function Reduce(seed: Seed, cs: ClientState): Desired {
    var owned := OwnedNames(seed, cs.instances);
    Desired(cs.checked,
            Unlocks(seed, seed.gates, owned, Counts(seed, cs.instances), cs.checked),
            GrantsOf(seed, cs.instances), Money(seed, cs.instances), GarageSlots(seed, cs.instances),
            Tiers(seed, owned, |Logos(seed, cs.checked)|), GoalCompleted(seed, owned, cs.checked))
  }

  // ---- The reducer's loops -----------------------------------------------

  method Tally(seed: Seed, inst: Instances) returns (owned: set<string>, counts: map<string, nat>)
    ensures owned == OwnedNames(seed, inst) && counts == Counts(seed, inst)
  {
    hide Owned;
    owned, counts := {}, map[];
    assert forall name :: !Owned(seed, inst[..0], name) by { NothingOwned(seed, inst[..0]); }
    for i := 0 to |inst|
      invariant counts.Keys == owned
      invariant forall name :: name in owned <==> Owned(seed, inst[..i], name)
      invariant forall name :: CountIn(counts, name) == CountOf(seed, inst[..i], name)
    {
      assert inst[..i + 1][..i] == inst[..i] && inst[..i + 1] == inst[..i] + [inst[i]];
      var (id, indices) := inst[i];
      forall name
        ensures Owned(seed, inst[..i + 1], name) <==> Owned(seed, inst[..i], name) || Named(seed, id, name)
      {
        OwnedSnoc(seed, inst[..i], inst[i], name);
      }
      if id in seed.itemTable {
        counts := counts[seed.itemTable[id] := |indices|];
        owned := owned + {seed.itemTable[id]};
      }
    }
    assert inst[..|inst|] == inst;
    assert owned == OwnedNames(seed, inst);
    assert forall name :: name in counts ==> counts[name] == CountIn(counts, name) == CountIn(Counts(seed, inst), name);
    assert counts == Counts(seed, inst);
  }

  function PackSum(names: set<string>, counts: map<string, nat>): nat {
    (if PACK_500 in names then 500 * CountIn(counts, PACK_500) else 0)
    + (if PACK_1000 in names then 1000 * CountIn(counts, PACK_1000) else 0)
    + (if PACK_5000 in names then 5000 * CountIn(counts, PACK_5000) else 0)
    + (if PACK_10000 in names then 10000 * CountIn(counts, PACK_10000) else 0)
    + (if PACK_50000 in names then 50000 * CountIn(counts, PACK_50000) else 0)
  }

  lemma PacksDiffer()
    ensures PACK_500 !in {PACK_1000, PACK_5000} && PACK_1000 != PACK_5000 && PACK_10000 != PACK_50000
    ensures PACK_10000 !in {PACK_500, PACK_1000, PACK_5000} && PACK_50000 !in {PACK_500, PACK_1000, PACK_5000}
  {
    assert PACK_500[13] == '5' && PACK_1000[13] == '1' && PACK_5000[13] == '5';
    assert |PACK_500| == 16 && |PACK_1000| == 18 && |PACK_5000| == 18 && |PACK_10000| == 19 && |PACK_50000| == 19;
    assert PACK_10000[13] == '1' && PACK_50000[13] == '5';
  }

  lemma PackSumAdd(names: set<string>, name: string, counts: map<string, nat>)
    requires name !in names
    ensures PackSum(names + {name}, counts) == PackSum(names, counts) + PackValue(name) * CountIn(counts, name)
  {
    PacksDiffer();
  }

  method TotalMoney(counts: map<string, nat>) returns (total: nat)
    ensures total == PackSum(counts.Keys, counts)
  {
    total := 0;
    var rest := counts.Keys;
    while rest != {}
      invariant rest <= counts.Keys && total == PackSum(counts.Keys - rest, counts)
      decreases |rest|
    {
      var name :| name in rest;
      PackSumAdd(counts.Keys - rest, name, counts);
      assert counts.Keys - (rest - {name}) == counts.Keys - rest + {name};
      rest := rest - {name};
      if PackValue(name) != 0 {
        total := total + PackValue(name) * counts[name];
      }
    }
    assert counts.Keys - rest == counts.Keys;
  }

  lemma AllPacksCounted(counts: map<string, nat>)
    ensures PackSum(counts.Keys, counts)
            == 500 * CountIn(counts, PACK_500) + 1000 * CountIn(counts, PACK_1000) + 5000 * CountIn(counts, PACK_5000)
               + 10000 * CountIn(counts, PACK_10000) + 50000 * CountIn(counts, PACK_50000)
  {}

  method OpenGates(seed: Seed, owned: set<string>, counts: map<string, nat>, checked: set<LocationId>)
      returns (unlocks: set<Unlock>)
    ensures unlocks == Unlocks(seed, seed.gates, owned, counts, checked)
  {
    hide Passes, UnlockOf;
    unlocks := {};
    for i := 0 to |seed.gates|
      invariant unlocks == Unlocks(seed, seed.gates[..i], owned, counts, checked)
    {
      assert seed.gates[..i + 1][..i] == seed.gates[..i];
      var passed := GatePassed(seed.gates[i], owned, counts, seed.locationTable, checked);
      if passed {
        unlocks := unlocks + UnlockOf(seed.gates[i].description);
      }
    }
    assert seed.gates[..|seed.gates|] == seed.gates;
  }

  method VehicleGrants(seed: Seed, inst: Instances) returns (grants: set<Grant>)
    ensures grants == GrantsOf(seed, inst)
  {
    hide Grants, GrantedVehicle;
    grants := {};
    for i := 0 to |inst|
      invariant grants == GrantsOf(seed, inst[..i])
    {
      assert inst[..i + 1][..i] == inst[..i];
      var (id, indices) := inst[i];
      if Grants(seed, id) {
        var vehicle := GrantedVehicle(seed, id);
        grants := grants + set idx | idx in indices :: Grant(vehicle, idx);
      }
    }
    assert inst[..|inst|] == inst;
  }

  method ReduceDesiredState(seed: Seed, cs: ClientState) returns (d: Desired)
    ensures d == Reduce(seed, cs)
  {
    hide Unlocks, GrantsOf, Tiers, GoalCompleted, Logos, PackSum;
    var owned, counts := Tally(seed, cs.instances);
    var logos := |Logos(seed, cs.checked)|;
    var tiers := Tiers(seed, owned, logos);
    var total := TotalMoney(counts);
    AllPacksCounted(counts);
    var garage := if 30 + CountIn(counts, SLOT_ITEM) < 60 then 30 + CountIn(counts, SLOT_ITEM) else 60;
    var goal := GoalCompleted(seed, owned, cs.checked);
    var unlocks := OpenGates(seed, owned, counts, cs.checked);
    var grants := VehicleGrants(seed, cs.instances);
    d := Desired(cs.checked, unlocks, grants, total, garage, tiers, goal);
  }
}
