/** When a gate of the reducer can close again: for every seed and gate, exactly
    which counted item names must be unique. */
module Locks {
  import opened OrderedDict
  import opened Gates
  import opened Reducer
  import opened ReducerLaws
  import opened ItemLog
  import opened Options

  /** The reducer passes the gate after receiving this log. */
  predicate Open(seed: Seed, gate: Gate, log: Dict<int, int>, checked: set<LocationId>) {
    var inst := Grouped(log);
    Passes(gate, OwnedNames(seed, inst), Counts(seed, inst), seed.locationTable, checked)
  }

  /** Receiving more and checking more never closes the gate. */
  ghost predicate NeverCloses(seed: Seed, gate: Gate) {
    forall log: Dict<int, int>, more: Dict<int, int>, checked: set<LocationId>, checked': set<LocationId> ::
      Distinct(log + more) && checked <= checked' && Open(seed, gate, log, checked) ==>
        Open(seed, gate, log + more, checked')
  }

  predicate HasItem(seed: Seed, name: string) {
    exists id :: id in seed.itemTable && seed.itemTable[id] == name
  }

  predicate AllItems(seed: Seed, names: seq<string>) {
    forall i :: 0 <= i < |names| ==> HasItem(seed, names[i])
  }

  /** Everything the gate names is in the seed's tables. */
  predicate CanOpen(seed: Seed, gate: Gate) {
    && AllItems(seed, gate.requiredItems)
    && (gate.requiredAny != [] ==> exists g :: 0 <= g < |gate.requiredAny| && AllItems(seed, gate.requiredAny[g]))
    && (forall i :: 0 <= i < |gate.requiredCounts| ==>
          gate.requiredCounts[i].1 <= 0 || HasItem(seed, gate.requiredCounts[i].0))
    && (forall i :: 0 <= i < |gate.requiredLocations| ==>
          LocIdFromName(seed.locationTable, gate.requiredLocations[i]).Some?)
  }

  /** No two items share a name of which the gate wants two or more. */
  ghost predicate CountedUnique(seed: Seed, gate: Gate) {
    forall i :: 0 <= i < |gate.requiredCounts| && gate.requiredCounts[i].1 >= 2 ==>
      UniqueName(seed, gate.requiredCounts[i].0)
  }

  // ---- Logs and their instances ------------------------------------------

  lemma AddGrows(inst: Instances, id: int, index: int)
    requires Distinct(inst)
    ensures Grows(inst, AddInstance(inst, id, index))
  {
    AddInstanceDistinct(inst, id, index);
    forall i | 0 <= i < |inst|
      ensures Find(AddInstance(inst, id, index), inst[i].0).Some?
      ensures inst[i].1 <= Find(AddInstance(inst, id, index), inst[i].0).value
    {
      FindAt(inst, i);
      PutFind(inst, id, (if Find(inst, id).Some? then Find(inst, id).value else {}) + {index}, inst[i].0);
    }
  }

  lemma GrowsTransitive(a: Instances, b: Instances, c: Instances)
    requires Grows(a, b) && Grows(b, c)
    ensures Grows(a, c)
  {
    forall i | 0 <= i < |a|
      ensures Find(c, a[i].0).Some? && a[i].1 <= Find(c, a[i].0).value
    {
      FindSome(b, a[i].0);
      var j :| 0 <= j < |b| && b[j] == (a[i].0, Find(b, a[i].0).value);
    }
  }

  lemma {:induction false} LogGrows(log: Dict<int, int>, more: Dict<int, int>)
    ensures Distinct(Grouped(log)) && Grows(Grouped(log), Grouped(log + more))
    decreases |more|
  {
    GroupedDistinct(log);
    if more == [] {
      assert log + more == log;
      ItselfGrows(Grouped(log));
    } else {
      hide Grows, AddInstance, Distinct;
      var n := |more| - 1;
      LogGrows(log, more[..n]);
      GroupedDistinct(log + more[..n]);
      assert (log + more)[..|log + more| - 1] == log + more[..n];
      AddGrows(Grouped(log + more[..n]), more[n].1, more[n].0);
      GrowsTransitive(Grouped(log), Grouped(log + more[..n]), Grouped(log + more));
    }
  }

  lemma ItselfGrows(inst: Instances)
    requires Distinct(inst)
    ensures Grows(inst, inst)
  {
    forall i | 0 <= i < |inst|
      ensures Find(inst, inst[i].0) == Some(inst[i].1)
    {
      FindAt(inst, i);
    }
  }

  lemma {:induction false} GroupedDistinct(log: Dict<int, int>)
    ensures Distinct(Grouped(log))
  {
    if log != [] {
      hide AddInstance, Distinct;
      GroupedDistinct(log[..|log| - 1]);
      AddInstanceDistinct(Grouped(log[..|log| - 1]), log[|log| - 1].1, log[|log| - 1].0);
    } else {
      assert Distinct(Grouped([]));
    }
  }

  /** With at least m instances of everything, every owned name counts at least m. */
  lemma {:induction false} OwnedCounts(seed: Seed, inst: Instances, name: string, m: nat)
    requires forall i :: 0 <= i < |inst| ==> |inst[i].1| >= m
    ensures Owned(seed, inst, name) ==> CountOf(seed, inst, name) >= m
  {
    if inst != [] {
      var n := |inst| - 1;
      assert inst == inst[..n] + [inst[n]];
      OwnedSnoc(seed, inst[..n], inst[n], name);
      OwnedCounts(seed, inst[..n], name, m);
    }
  }

  lemma CountedOnce(seed: Seed, log: Dict<int, int>, name: string)
    ensures CountOf(seed, Grouped(log), name) >= 1 <==> Owned(seed, Grouped(log), name)
  {
    GroupedNonEmpty(log);
    var inst := Grouped(log);
    forall i | 0 <= i < |inst|
      ensures |inst[i].1| >= 1
    {
      assert inst[i].1 != {};
    }
    OwnedCounts(seed, inst, name, 1);
    CountNotOwned(seed, inst, name);
  }

  // ---- A gate with unique counted names never closes ---------------------

  lemma StaysOpen(seed: Seed, gate: Gate, log: Dict<int, int>, more: Dict<int, int>,
                  checked: set<LocationId>, checked': set<LocationId>)
    requires CountedUnique(seed, gate) && checked <= checked' && Open(seed, gate, log, checked)
    ensures Open(seed, gate, log + more, checked')
  {
    hide Grouped, Grows, Owned, CountOf, OwnedNames, Counts, LocIdFromName;
    var a, b := Grouped(log), Grouped(log + more);
    LogGrows(log, more);
    OwnedNamesMonotone(seed, a, b);
    if gate.requiredAny != [] {
      var g :| 0 <= g < |gate.requiredAny| && OwnsAll(gate.requiredAny[g], OwnedNames(seed, a));
      assert OwnsAll(gate.requiredAny[g], OwnedNames(seed, b));
    }
    forall i | 0 <= i < |gate.requiredCounts|
      ensures CountIn(Counts(seed, b), gate.requiredCounts[i].0) >= gate.requiredCounts[i].1
    {
      var (name, needed) := gate.requiredCounts[i];
      assert CountIn(Counts(seed, a), name) >= needed;
      if needed >= 2 {
        CountMonotone(seed, a, b, name);
      } else if needed == 1 {
        CountedOnce(seed, log, name);
        CountedOnce(seed, log + more, name);
        OwnedMonotone(seed, a, b, name);
      }
    }
  }

  lemma OpenCanOpen(seed: Seed, gate: Gate, log: Dict<int, int>, checked: set<LocationId>)
    requires Open(seed, gate, log, checked)
    ensures CanOpen(seed, gate)
  {
    hide Grouped, CountOf, LocIdFromName, Counts;
    var inst := Grouped(log);
    forall name | Owned(seed, inst, name)
      ensures HasItem(seed, name)
    {
      var i :| 0 <= i < |inst| && Named(seed, inst[i].0, name);
      assert inst[i].0 in seed.itemTable;
    }
    if gate.requiredAny != [] {
      var g :| 0 <= g < |gate.requiredAny| && OwnsAll(gate.requiredAny[g], OwnedNames(seed, inst));
      assert AllItems(seed, gate.requiredAny[g]);
    }
    forall i | 0 <= i < |gate.requiredCounts| && gate.requiredCounts[i].1 > 0
      ensures HasItem(seed, gate.requiredCounts[i].0)
    {
      assert CountIn(Counts(seed, inst), gate.requiredCounts[i].0) >= gate.requiredCounts[i].1;
      CountNotOwned(seed, inst, gate.requiredCounts[i].0);
    }
    forall i | 0 <= i < |gate.requiredLocations|
      ensures LocIdFromName(seed.locationTable, gate.requiredLocations[i]).Some?
    {
      assert LocationChecked(seed.locationTable, checked, gate.requiredLocations[i]);
    }
  }

  // ---- A shared name that counts does close it ---------------------------

  /** m copies of each of these items, one after the other. */
  function Stock(ids: seq<int>, m: nat): (log: Dict<int, int>)
    ensures |log| == m * |ids| && forall j :: 0 <= j < |log| ==> log[j].0 == j
  {
    if ids == [] then []
    else
      var before := Stock(ids[..|ids| - 1], m);
      before + seq(m, k requires 0 <= k < m => (|before| + k, ids[|ids| - 1]))
  }

  /** The numbers lo, ..., lo + m - 1. */
  function Block(lo: int, m: nat): (b: set<int>)
    ensures |b| == m && forall j :: j in b <==> lo <= j < lo + m
  {
    if m == 0 then {} else Block(lo, m - 1) + {lo + (m - 1)}
  }

  /** Every item of the stock has at least m instances, and nothing else has any. */
  lemma StockHas(ids: seq<int>, m: nat)
    requires m > 0
    ensures var inst := Grouped(Stock(ids, m));
            && (forall i :: 0 <= i < |inst| ==> |inst[i].1| >= m && inst[i].0 in ids)
            && (forall k :: 0 <= k < |ids| ==> Find(inst, ids[k]).Some?)
  {
    hide Grouped, Stock;
    var inst := Grouped(Stock(ids, m));
    forall k | 0 <= k < |ids|
      ensures Find(inst, ids[k]).Some?
    {
      StockItem(ids, m, k);
    }
    forall i | 0 <= i < |inst|
      ensures |inst[i].1| >= m && inst[i].0 in ids
    {
      StockEntry(ids, m, i);
    }
  }

  lemma StockItem(ids: seq<int>, m: nat, k: nat)
    requires m > 0 && k < |ids|
    ensures var inst := Grouped(Stock(ids, m)); Find(inst, ids[k]).Some? && |Find(inst, ids[k]).value| >= m
  {
    hide Grouped, Stock;
    var log := Stock(ids, m);
    var cs := ClientState(log, Grouped(log), {}, false, 0);
    LogIsInverse(log);
    StockBlock(ids, m, k);
    var block := Block(k * m, m);
    forall j | j in block
      ensures HasInstance(cs.instances, ids[k], j)
    {
      FindAt(log, j);
      assert Find(cs.received, j) == Some(ids[k]);
    }
    assert k * m in block;
    SubsetSize(block, Find(cs.instances, ids[k]).value);
  }

  lemma StockEntry(ids: seq<int>, m: nat, i: nat)
    requires m > 0 && i < |Grouped(Stock(ids, m))|
    ensures var inst := Grouped(Stock(ids, m)); |inst[i].1| >= m && inst[i].0 in ids
  {
    hide Grouped, Stock;
    var log := Stock(ids, m);
    var cs := ClientState(log, Grouped(log), {}, false, 0);
    LogIsInverse(log);
    GroupedNonEmpty(log);
    FindAt(cs.instances, i);
    NoElements(cs.instances[i].1);
    var j :| j in cs.instances[i].1;
    assert HasInstance(cs.instances, cs.instances[i].0, j);
    FindSome(log, j);
    var p :| 0 <= p < |log| && log[p] == (j, cs.instances[i].0);
    StockFrom(ids, m, p);
    var k :| 0 <= k < |ids| && ids[k] == cs.instances[i].0;
    StockItem(ids, m, k);
  }

  lemma {:induction false} StockBlock(ids: seq<int>, m: nat, k: nat)
    requires k < |ids|
    ensures 0 <= k * m && k * m + m <= |Stock(ids, m)|
    ensures forall j :: k * m <= j < k * m + m ==> Stock(ids, m)[j].1 == ids[k]
  {
    if k < |ids| - 1 {
      StockBlock(ids[..|ids| - 1], m, k);
    }
  }

  lemma {:induction false} StockFrom(ids: seq<int>, m: nat, p: nat)
    requires p < |Stock(ids, m)|
    ensures Stock(ids, m)[p].1 in ids
  {
    if p < |Stock(ids[..|ids| - 1], m)| {
      StockFrom(ids[..|ids| - 1], m, p);
    }
  }

  lemma ListOf(s: set<int>) returns (l: seq<int>)
    ensures forall x :: x in l <==> x in s
  {
    if s == {} {
      l := [];
    } else {
      NoElements(s);
      var x :| x in s;
      l := ListOf(s - {x});
      l := l + [x];
    }
  }

  function MostNeeded(needed: Dict<string, int>): (m: nat)
    ensures forall i :: 0 <= i < |needed| ==> needed[i].1 <= m
  {
    if needed == [] then 0
    else
      var m := MostNeeded(needed[..|needed| - 1]);
      if needed[|needed| - 1].1 <= m then m else needed[|needed| - 1].1
  }

  /** With enough items of every name, a gate that can open is open. */
  lemma StockOpens(seed: Seed, gate: Gate, ids: seq<int>, m: nat, checked: set<LocationId>)
    requires CanOpen(seed, gate) && m > 0 && m >= MostNeeded(gate.requiredCounts)
    requires forall name :: HasItem(seed, name) ==> exists k :: 0 <= k < |ids| && Named(seed, ids[k], name)
    requires forall i :: 0 <= i < |gate.requiredLocations| ==>
               LocationChecked(seed.locationTable, checked, gate.requiredLocations[i])
    ensures Open(seed, gate, Stock(ids, m), checked)
  {
    hide Grouped, CountOf, LocationChecked, Counts, Stock;
    var inst := Grouped(Stock(ids, m));
    StockHas(ids, m);
    forall name | HasItem(seed, name)
      ensures Owned(seed, inst, name) && CountOf(seed, inst, name) >= m
    {
      var k :| 0 <= k < |ids| && Named(seed, ids[k], name);
      FindSome(inst, ids[k]);
      var j :| 0 <= j < |inst| && inst[j] == (ids[k], Find(inst, ids[k]).value);
      assert Named(seed, inst[j].0, name);
      OwnedCounts(seed, inst, name, m);
    }
    hide Owned;
    if gate.requiredAny != [] {
      var g :| 0 <= g < |gate.requiredAny| && AllItems(seed, gate.requiredAny[g]);
      assert OwnsAll(gate.requiredAny[g], OwnedNames(seed, inst));
    }
  }

  /** Receiving the other item of a shared name brings that name's count to one. */
  lemma SharedCountDrops(seed: Seed, log: Dict<int, int>, y: int, name: string)
    requires Named(seed, y, name) && Find(Grouped(log), y).None?
    ensures CountOf(seed, Grouped(log + [(|log|, y)]), name) == 1
  {
    hide CountOf, Find, Grouped, Put;
    var inst := Grouped(log);
    GroupedSnoc(log, |log|, y);
    PutKeys(inst, y, {|log|});
    assert {} + {|log|} == {|log|};
    LastCounts(seed, inst, y, {|log|}, name);
  }

  lemma GroupedSnoc(log: Dict<int, int>, index: int, id: int)
    ensures Grouped(log + [(index, id)]) == AddInstance(Grouped(log), id, index)
  {
    hide AddInstance;
    assert (log + [(index, id)])[..|log|] == log;
  }

  lemma LastCounts(seed: Seed, inst: Instances, y: int, indices: set<int>, name: string)
    requires Named(seed, y, name)
    ensures CountOf(seed, inst + [(y, indices)], name) == |indices|
  {}

  lemma SharedCloses(seed: Seed, gate: Gate, i: nat, x: int, y: int)
    requires CanOpen(seed, gate) && i < |gate.requiredCounts| && gate.requiredCounts[i].1 >= 2
    requires x != y && Named(seed, x, gate.requiredCounts[i].0) && Named(seed, y, gate.requiredCounts[i].0)
    ensures !NeverCloses(seed, gate)
  {
    hide CanOpen, LocationChecked, HasItem, Open, Stock, UniqueName;
    var ids := ListOf(seed.itemTable.Keys - {y});
    NamesKept(seed, ids, x, y);
    var m := MostNeeded(gate.requiredCounts);
    assert gate.requiredCounts[i].1 <= m;
    var checked := AllChecked(seed, gate);
    StockOpens(seed, gate, ids, m, checked);
    NotStocked(ids, m, y);
    var log := Stock(ids, m);
    SharedCountDrops(seed, log, y, gate.requiredCounts[i].0);
    NotOpen(seed, gate, log + [(|log|, y)], checked, i);
    assert Distinct(log + [(|log|, y)]);
  }

  /** Without y every name still has an item, for x shares the name of y. */
  lemma NamesKept(seed: Seed, ids: seq<int>, x: int, y: int)
    requires x != y && x in seed.itemTable && y in seed.itemTable && seed.itemTable[x] == seed.itemTable[y]
    requires forall id :: id in ids <==> id in seed.itemTable.Keys - {y}
    ensures forall name :: HasItem(seed, name) ==> exists k :: 0 <= k < |ids| && Named(seed, ids[k], name)
  {
    forall name | HasItem(seed, name)
      ensures exists k :: 0 <= k < |ids| && Named(seed, ids[k], name)
    {
      var id :| id in seed.itemTable && seed.itemTable[id] == name;
      var other := if id == y then x else id;
      assert other in ids;
      var k :| 0 <= k < |ids| && ids[k] == other;
      assert Named(seed, ids[k], name);
    }
  }

  /** With all locations checked, every location the gate can find is. */
  lemma AllChecked(seed: Seed, gate: Gate) returns (checked: set<LocationId>)
    requires CanOpen(seed, gate)
    ensures forall j :: 0 <= j < |gate.requiredLocations| ==>
              LocationChecked(seed.locationTable, checked, gate.requiredLocations[j])
  {
    checked := set k | 0 <= k < |seed.locationTable| :: seed.locationTable[k].0;
    forall j | 0 <= j < |gate.requiredLocations|
      ensures LocationChecked(seed.locationTable, checked, gate.requiredLocations[j])
    {
      LocIdIsFirst(seed.locationTable, gate.requiredLocations[j]);
    }
  }

  lemma NotStocked(ids: seq<int>, m: nat, y: int)
    requires m > 0 && y !in ids
    ensures Find(Grouped(Stock(ids, m)), y).None?
  {
    StockHas(ids, m);
    FindNone(Grouped(Stock(ids, m)), y);
  }

  lemma NotOpen(seed: Seed, gate: Gate, log: Dict<int, int>, checked: set<LocationId>, i: nat)
    requires i < |gate.requiredCounts|
    requires CountOf(seed, Grouped(log), gate.requiredCounts[i].0) < gate.requiredCounts[i].1
    ensures !Open(seed, gate, log, checked)
  {}

  // ---- Exactly when ------------------------------------------------------

  /** A gate never closes again if and only if it cannot open at all, or no two
      items share a name of which it wants two or more. */
  lemma NeverClosesIff(seed: Seed, gate: Gate)
    ensures NeverCloses(seed, gate) <==> !CanOpen(seed, gate) || CountedUnique(seed, gate)
  {
    if !CanOpen(seed, gate) || CountedUnique(seed, gate) {
      forall log: Dict<int, int>, more: Dict<int, int>, checked: set<LocationId>, checked': set<LocationId>
        | Distinct(log + more) && checked <= checked' && Open(seed, gate, log, checked)
        ensures Open(seed, gate, log + more, checked')
      {
        OpenCanOpen(seed, gate, log, checked);
        StaysOpen(seed, gate, log, more, checked, checked');
      }
    } else {
      var i :| 0 <= i < |gate.requiredCounts| && gate.requiredCounts[i].1 >= 2
               && !UniqueName(seed, gate.requiredCounts[i].0);
      var x, y :| Named(seed, x, gate.requiredCounts[i].0) && Named(seed, y, gate.requiredCounts[i].0) && x != y;
      SharedCloses(seed, gate, i, x, y);
    }
  }
}
