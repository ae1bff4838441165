/** The three gate evaluators: client/mc3ap/domain/gates.py, `_gate_passed` of
    client/mc3ap/domain/reducer.py, and the rule of worlds/mc3/rules.py.  A frozen
    set is the sequence Python happens to iterate over. */
module Gates {
  import opened OrderedDict
  import opened Options

  datatype Gate = Gate(gateId: string, description: string, requiredItems: seq<string>, requiredAny: seq<seq<string>>,
                       requiredCounts: Dict<string, int>, requiredLocations: seq<string>)

  datatype Missing =
    | MissingItem(name: string)
    | MissingAny(groups: seq<seq<string>>)
    | MissingCount(name: string, needed: int)
    | MissingLocation(name: string)

  datatype GateDecision = GateDecision(allowed: bool, reasonCode: int, missing: seq<Missing>)

  /** A location id is a number in the declared types, and a text once it went
      through the client service or the event store. */
  datatype LocationId = Number(n: int) | Text(text: string)

  /** The names of the locations. */
  type LocationTable = Dict<LocationId, string>

  // ---- What passing means ------------------------------------------------

  predicate OwnsAll(names: seq<string>, owned: set<string>) {
    forall i :: 0 <= i < |names| ==> names[i] in owned
  }

  predicate OwnsSomeGroup(groups: seq<seq<string>>, owned: set<string>) {
    exists g :: 0 <= g < |groups| && OwnsAll(groups[g], owned)
  }

  function CountIn(counts: map<string, nat>, name: string): nat {
    if name in counts then counts[name] else 0
  }

  predicate HasCounts(needed: Dict<string, int>, counts: map<string, nat>) {
    forall i :: 0 <= i < |needed| ==> CountIn(counts, needed[i].0) >= needed[i].1
  }

  /** Everything but the locations. */
  predicate ItemsPass(gate: Gate, owned: set<string>, counts: map<string, nat>) {
    && OwnsAll(gate.requiredItems, owned)
    && (gate.requiredAny != [] ==> OwnsSomeGroup(gate.requiredAny, owned))
    && HasCounts(gate.requiredCounts, counts)
  }

  predicate AllIn(names: seq<string>, checkedNames: set<string>) {
    forall i :: 0 <= i < |names| ==> names[i] in checkedNames
  }

  // ---- gates.py: collect what is missing ---------------------------------

  function MissingItems(names: seq<string>, owned: set<string>): seq<Missing> {
    if names == [] then []
    else MissingItems(names[..|names| - 1], owned)
         + if names[|names| - 1] in owned then [] else [MissingItem(names[|names| - 1])]
  }

  function MissingCounts(needed: Dict<string, int>, counts: map<string, nat>): seq<Missing> {
    if needed == [] then []
    else
      var n := needed[|needed| - 1];
      MissingCounts(needed[..|needed| - 1], counts)
      + if CountIn(counts, n.0) >= n.1 then [] else [MissingCount(n.0, n.1)]
  }

  function MissingLocations(names: seq<string>, checkedNames: set<string>): seq<Missing> {
    if names == [] then []
    else MissingLocations(names[..|names| - 1], checkedNames)
         + if names[|names| - 1] in checkedNames then [] else [MissingLocation(names[|names| - 1])]
  }

  function MissingOf(gate: Gate, owned: set<string>, counts: map<string, nat>,
                     checkedNames: set<string>): seq<Missing> {
    MissingItems(gate.requiredItems, owned)
    + (if gate.requiredAny != [] && !OwnsSomeGroup(gate.requiredAny, owned) then [MissingAny(gate.requiredAny)] else [])
    + MissingCounts(gate.requiredCounts, counts)
    + MissingLocations(gate.requiredLocations, checkedNames)
  }

  method EvaluateGate(gate: Gate, owned: set<string>, counts: map<string, nat>, checkedNames: set<string>)
      returns (d: GateDecision)
    ensures d.missing == MissingOf(gate, owned, counts, checkedNames)
    ensures d.allowed <==> ItemsPass(gate, owned, counts) && AllIn(gate.requiredLocations, checkedNames)
    ensures d.reasonCode == if d.allowed then 0 else 1
  {
    var missing: seq<Missing> := [];
    for i := 0 to |gate.requiredItems|
      invariant missing == MissingItems(gate.requiredItems[..i], owned)
    {
      assert gate.requiredItems[..i + 1][..i] == gate.requiredItems[..i];
      if gate.requiredItems[i] !in owned {
        missing := missing + [MissingItem(gate.requiredItems[i])];
      }
    }
    assert gate.requiredItems[..|gate.requiredItems|] == gate.requiredItems;
    if gate.requiredAny != [] {
      var anySatisfied := GroupSatisfied(gate.requiredAny, owned);
      if !anySatisfied {
        missing := missing + [MissingAny(gate.requiredAny)];
      }
    }
    ghost var before := missing;
    ghost var added: seq<Missing> := [];
    for i := 0 to |gate.requiredCounts|
      invariant added == MissingCounts(gate.requiredCounts[..i], counts) && missing == before + added
    {
      assert gate.requiredCounts[..i + 1][..i] == gate.requiredCounts[..i];
      var (name, needed) := gate.requiredCounts[i];
      if CountIn(counts, name) < needed {
        missing := missing + [MissingCount(name, needed)];
        added := added + [MissingCount(name, needed)];
      }
    }
    assert gate.requiredCounts[..|gate.requiredCounts|] == gate.requiredCounts;
    before, added := missing, [];
    for i := 0 to |gate.requiredLocations|
      invariant added == MissingLocations(gate.requiredLocations[..i], checkedNames) && missing == before + added
    {
      assert gate.requiredLocations[..i + 1][..i] == gate.requiredLocations[..i];
      if gate.requiredLocations[i] !in checkedNames {
        missing := missing + [MissingLocation(gate.requiredLocations[i])];
        added := added + [MissingLocation(gate.requiredLocations[i])];
      }
    }
    assert gate.requiredLocations[..|gate.requiredLocations|] == gate.requiredLocations;
    NothingMissing(gate, owned, counts, checkedNames);
    d := if missing != [] then GateDecision(false, 1, missing) else GateDecision(true, 0, []);
  }

  method GroupSatisfied(groups: seq<seq<string>>, owned: set<string>) returns (found: bool)
    ensures found <==> OwnsSomeGroup(groups, owned)
  {
    found := false;
    for g := 0 to |groups|
      invariant !found && forall h :: 0 <= h < g ==> !OwnsAll(groups[h], owned)
    {
      if OwnsAll(groups[g], owned) {
        found := true;
        return;
      }
    }
  }

  lemma {:induction false} NoItemsMissing(names: seq<string>, owned: set<string>)
    ensures MissingItems(names, owned) == [] <==> OwnsAll(names, owned)
  {
    if names != [] {
      NoItemsMissing(names[..|names| - 1], owned);
    }
  }

  lemma {:induction false} NoCountsMissing(needed: Dict<string, int>, counts: map<string, nat>)
    ensures MissingCounts(needed, counts) == [] <==> HasCounts(needed, counts)
  {
    if needed != [] {
      NoCountsMissing(needed[..|needed| - 1], counts);
    }
  }

  lemma {:induction false} NoLocationsMissing(names: seq<string>, checkedNames: set<string>)
    ensures MissingLocations(names, checkedNames) == [] <==> AllIn(names, checkedNames)
  {
    if names != [] {
      NoLocationsMissing(names[..|names| - 1], checkedNames);
    }
  }

  /** The list of missing things is empty exactly when the gate passes. */
  lemma NothingMissing(gate: Gate, owned: set<string>, counts: map<string, nat>, checkedNames: set<string>)
    ensures MissingOf(gate, owned, counts, checkedNames) == []
            <==> ItemsPass(gate, owned, counts) && AllIn(gate.requiredLocations, checkedNames)
  {
    hide OwnsSomeGroup;
    NoItemsMissing(gate.requiredItems, owned);
    NoCountsMissing(gate.requiredCounts, counts);
    NoLocationsMissing(gate.requiredLocations, checkedNames);
  }

  // ---- reducer.py: early exit --------------------------------------------

  /** `_loc_id_from_name`: the first id of that name. */
  function LocIdFromName(table: LocationTable, name: string): Option<LocationId> {
    if table == [] then None
    else if table[0].1 == name then Some(table[0].0)
    else LocIdFromName(table[1..], name)
  }

  predicate LocationChecked(table: LocationTable, checked: set<LocationId>, name: string) {
    LocIdFromName(table, name).Some? && LocIdFromName(table, name).value in checked
  }

  predicate LocationsChecked(table: LocationTable, checked: set<LocationId>, names: seq<string>) {
    forall i :: 0 <= i < |names| ==> LocationChecked(table, checked, names[i])
  }

  predicate Passes(gate: Gate, owned: set<string>, counts: map<string, nat>, table: LocationTable,
                   checked: set<LocationId>) {
    ItemsPass(gate, owned, counts) && LocationsChecked(table, checked, gate.requiredLocations)
  }

  method GatePassed(gate: Gate, owned: set<string>, counts: map<string, nat>, table: LocationTable,
                    checked: set<LocationId>)
      returns (passed: bool)
    ensures passed <==> Passes(gate, owned, counts, table, checked)
  {
    for i := 0 to |gate.requiredItems|
      invariant forall k :: 0 <= k < i ==> gate.requiredItems[k] in owned
    {
      if gate.requiredItems[i] !in owned {
        return false;
      }
    }
    if gate.requiredAny != [] {
      var found := GroupSatisfied(gate.requiredAny, owned);
      if !found {
        return false;
      }
    }
    for i := 0 to |gate.requiredCounts|
      invariant forall k :: 0 <= k < i ==> CountIn(counts, gate.requiredCounts[k].0) >= gate.requiredCounts[k].1
    {
      if CountIn(counts, gate.requiredCounts[i].0) < gate.requiredCounts[i].1 {
        return false;
      }
    }
    for i := 0 to |gate.requiredLocations|
      invariant forall k :: 0 <= k < i ==> LocationChecked(table, checked, gate.requiredLocations[k])
    {
      if !LocationChecked(table, checked, gate.requiredLocations[i]) {
        return false;
      }
    }
    passed := true;
  }

  // ---- rules.py ----------------------------------------------------------

  /** `_rule`: item names only, no counts and no locations. */
  predicate RulePasses(gate: Gate, owned: set<string>) {
    && OwnsAll(gate.requiredItems, owned)
    && (gate.requiredAny != [] ==> OwnsSomeGroup(gate.requiredAny, owned))
  }

  /** The access rule as the generator evaluates it. */
  method AccessRule(gate: Gate, owned: set<string>) returns (open: bool)
    ensures open <==> RulePasses(gate, owned)
  {
    for i := 0 to |gate.requiredItems|
      invariant forall k :: 0 <= k < i ==> gate.requiredItems[k] in owned
    {
      if gate.requiredItems[i] !in owned {
        return false;
      }
    }
    if gate.requiredAny != [] {
      open := GroupSatisfied(gate.requiredAny, owned);
      return;
    }
    open := true;
  }

  /** What the generator's rule leaves out are exactly the counts and the locations. */
  lemma RuleGapIs(gate: Gate, owned: set<string>, counts: map<string, nat>, table: LocationTable,
                  checked: set<LocationId>)
    ensures Passes(gate, owned, counts, table, checked)
            <==> && RulePasses(gate, owned) && LocationsChecked(table, checked, gate.requiredLocations)
                 && forall i :: 0 <= i < |gate.requiredCounts| ==>
                      Reaches(counts, gate.requiredCounts[i].0, gate.requiredCounts[i].1)
  {
    hide OwnsAll, OwnsSomeGroup, LocationsChecked;
    forall i | 0 <= i < |gate.requiredCounts|
      ensures CountIn(counts, gate.requiredCounts[i].0) >= gate.requiredCounts[i].1
              <==> Reaches(counts, gate.requiredCounts[i].0, gate.requiredCounts[i].1)
    {}
  }

  predicate Reaches(counts: map<string, nat>, name: string, need: int) {
    need <= 0 || (name in counts && counts[name] >= need)
  }

  // ---- Agreement ---------------------------------------------------------

  /** The names of the checked locations. */
  ghost function CheckedNames(table: LocationTable, checked: set<LocationId>): set<string> {
    set i | 0 <= i < |table| && table[i].0 in checked :: table[i].1
  }

  ghost predicate UniqueNames(table: LocationTable) {
    forall i, j :: 0 <= i < j < |table| ==> table[i].1 != table[j].1
  }

  lemma {:induction false} LocIdIsFirst(table: LocationTable, name: string)
    ensures LocIdFromName(table, name).None? ==> forall i :: 0 <= i < |table| ==> table[i].1 != name
    ensures LocIdFromName(table, name).Some? ==>
              exists i :: 0 <= i < |table| && table[i] == (LocIdFromName(table, name).value, name)
                          && forall j :: 0 <= j < i ==> table[j].1 != name
  {
    if table != [] && table[0].1 != name {
      LocIdIsFirst(table[1..], name);
      if LocIdFromName(table, name).Some? {
        var i :| 0 <= i < |table[1..]| && table[1..][i] == (LocIdFromName(table, name).value, name)
                 && forall j :: 0 <= j < i ==> table[1..][j].1 != name;
        assert table[i + 1] == (LocIdFromName(table, name).value, name);
        assert forall j :: 0 <= j < i + 1 ==> table[j].1 != name by {
          forall j | 0 <= j < i + 1
            ensures table[j].1 != name
          {
            if j > 0 {
              assert table[1..][j - 1].1 != name;
            }
          }
        }
      }
    }
  }

  lemma CheckedByIdOrName(table: LocationTable, checked: set<LocationId>, name: string)
    ensures LocationChecked(table, checked, name) ==> name in CheckedNames(table, checked)
    ensures UniqueNames(table) && name in CheckedNames(table, checked) ==> LocationChecked(table, checked, name)
  {
    LocIdIsFirst(table, name);
  }

  /** The reducer and the gate module agree on every gate, every inventory and
      every set of checked locations exactly when no two locations share a name. */
  lemma EvaluatorsAgreeIff(table: LocationTable)
    requires Distinct(table)
    ensures UniqueNames(table) <==>
            forall gate: Gate, owned: set<string>, counts: map<string, nat>, checked: set<LocationId> ::
              Passes(gate, owned, counts, table, checked)
              <==> ItemsPass(gate, owned, counts) && AllIn(gate.requiredLocations, CheckedNames(table, checked))
  {
    if UniqueNames(table) {
      forall gate: Gate, owned: set<string>, counts: map<string, nat>, checked: set<LocationId>
        ensures Passes(gate, owned, counts, table, checked)
                <==> ItemsPass(gate, owned, counts) && AllIn(gate.requiredLocations, CheckedNames(table, checked))
      {
        AgreeOnNames(table, checked, gate.requiredLocations);
      }
    } else {
      var i, j :| 0 <= i < j < |table| && table[i].1 == table[j].1;
      var name := table[j].1;
      var gate := Gate("", "", [], [], [], [name]);
      var checked := {table[j].0};
      LocIdIsFirst(table, name);
      assert LocIdFromName(table, name).value != table[j].0;
      assert !LocationChecked(table, checked, gate.requiredLocations[0]);
      assert !Passes(gate, {}, map[], table, checked);
      assert name in CheckedNames(table, checked);
      assert AllIn(gate.requiredLocations, CheckedNames(table, checked));
    }
  }

  lemma AgreeOnNames(table: LocationTable, checked: set<LocationId>, names: seq<string>)
    requires UniqueNames(table)
    ensures LocationsChecked(table, checked, names) <==> AllIn(names, CheckedNames(table, checked))
  {
    hide LocationChecked, CheckedNames;
    forall i | 0 <= i < |names|
      ensures LocationChecked(table, checked, names[i]) <==> names[i] in CheckedNames(table, checked)
    {
      CheckedByIdOrName(table, checked, names[i]);
    }
  }

  /** Owning more, counting more and checking more never closes a gate, and an
      open gate satisfies the generator's rule. */
  lemma GateMonotone(gate: Gate, owned: set<string>, counts: map<string, nat>, checked: set<LocationId>,
                     owned': set<string>, counts': map<string, nat>, checked': set<LocationId>, table: LocationTable)
    requires owned <= owned' && checked <= checked'
    requires forall i :: 0 <= i < |gate.requiredCounts| ==>
               CountIn(counts, gate.requiredCounts[i].0) <= CountIn(counts', gate.requiredCounts[i].0)
    requires Passes(gate, owned, counts, table, checked)
    ensures Passes(gate, owned', counts', table, checked')
    ensures RulePasses(gate, owned)
  {
    if gate.requiredAny != [] {
      var g :| 0 <= g < |gate.requiredAny| && OwnsAll(gate.requiredAny[g], owned);
      assert OwnsAll(gate.requiredAny[g], owned');
    }
  }
}
