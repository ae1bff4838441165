/** What the parts of the desired state mean, read off the seed and the client
    state: unlocks, grants, tiers, money and the goal of
    client/mc3ap/domain/reducer.py. */
module ReducedState {
  import opened OrderedDict
  import opened Gates
  import opened Text
  import opened Reducer
  import opened ReducerLaws
  import opened Options

  // ---- Unlocks -----------------------------------------------------------

  /** What a description may announce, in the order in which the reducer looks. */
  const PREFIXES: seq<string> := [
    "city permit:", "event permit:", "vehicle class license:", "vehicle category permit:", "vehicle permit:",
    "ability permit:", "part category permit:", "part permit:"]

  /** d is s with its capital letters made small. */
  predicate InLowerCase(s: string, d: string) {
    |d| == |s| && forall i :: 0 <= i < |s| ==> Mapped(s[i], d[i], CAPITALS, SMALLS)
  }

  /** n is t with its small letters made capital. */
  predicate InUpperCase(t: string, n: string) {
    |n| == |t| && forall i :: 0 <= i < |t| ==> Mapped(t[i], n[i], SMALLS, CAPITALS)
  }

  /** n is t with underscores for blanks. */
  predicate InSnakeCase(t: string, n: string) {
    |n| == |t| && forall i :: 0 <= i < |t| ==> n[i] == if t[i] == ' ' then '_' else t[i]
  }

  /** Prefix p is the first one that occurs in the text, and t follows its last
      occurrence, up to white space. */
  ghost predicate Announces(text: string, p: nat, t: string)
    requires p < 8
  {
    && (forall k :: 0 <= k < p ==> !Occurs(text, PREFIXES[k]))
    && exists r :: LastPart(text, PREFIXES[p], r) && Stripped(r, t)
  }

  /** A passed gate with this description, in small letters, unlocks u. */
  ghost predicate Unlocking(text: string, u: Unlock) {
    match u
    case City(n) => exists t :: Announces(text, 0, t) && InSnakeCase(t, n)
    case Race(n) => Announces(text, 1, n)
    case VehicleClass(n) => exists t :: Announces(text, 2, t) && InUpperCase(t, n)
    case VehicleCategory(n) => Announces(text, 3, n)
    case Vehicle(n) => exists t :: Announces(text, 4, t) && InSnakeCase(t, n)
    case Ability(n) => Announces(text, 5, n)
    case PartCategory(n) => Announces(text, 6, n)
    case Part(n) => Announces(text, 7, n)
  }

  lemma LastCharOnce(sep: string)
    requires sep != "" && forall i :: 0 <= i < |sep| - 1 ==> sep[i] != sep[|sep| - 1]
    ensures Unbordered(sep)
  {
    forall k | 0 < k < |sep|
      ensures sep[..k] != sep[|sep| - k..]
    {
      assert sep[..k][k - 1] == sep[k - 1] && sep[|sep| - k..][k - 1] == sep[|sep| - 1];
    }
  }

  lemma EightPrefixes()
    ensures |PREFIXES| == 8
  {}

  lemma PrefixUnbordered(p: nat)
    requires p < 8
    ensures PREFIXES[p] != "" && Unbordered(PREFIXES[p])
  {
    hide Unbordered;
    LastCharOnce(PREFIXES[p]);
  }

  /** The reducer's `split(prefix)[-1].strip()`, when no earlier prefix occurs. */
  function Rest(text: string, p: nat): string
    requires p < 8 && PREFIXES[p] != ""
  {
    Strip(AfterLast(text, PREFIXES[p]))
  }

  lemma AnnouncesIs(text: string, p: nat, t: string)
    requires p < 8 && PREFIXES[p] != ""
    ensures Announces(text, p, t)
            <==> (forall k :: 0 <= k < p ==> !Contains(text, PREFIXES[k])) && Contains(text, PREFIXES[p])
                 && t == Rest(text, p)
  {
    hide Contains, AfterLast, Strip, Unbordered, LastPart, Stripped, Occurs, PREFIXES;
    EightPrefixes();
    forall k | 0 <= k <= p
      ensures Contains(text, PREFIXES[k]) <==> Occurs(text, PREFIXES[k])
    {
      ContainsIff(text, PREFIXES[k]);
    }
    PrefixUnbordered(p);
    AfterLastIs(text, PREFIXES[p]);
    StripIs(AfterLast(text, PREFIXES[p]));
    if r :| LastPart(text, PREFIXES[p], r) && Stripped(r, t) {
      LastPartUnique(text, PREFIXES[p], r);
      StripUnique(r, t);
    }
  }

  predicate Small(s: string) {
    forall i :: 0 <= i < |s| ==> LowerChar(s[i]) == s[i]
  }

  lemma SmallFixed(s: string)
    requires Small(s)
    ensures Lower(s) == s && Lower(Underscored(s)) == Underscored(s)
  {}

  lemma SmallSlice(s: string, i: nat, j: nat)
    requires Small(s) && i <= j <= |s|
    ensures Small(s[i..j])
  {
    hide LowerChar;
  }

  lemma RestIsSmall(text: string, p: nat)
    requires p < |PREFIXES| && PREFIXES[p] != "" && Small(text)
    ensures Small(Strip(AfterLast(text, PREFIXES[p])))
  {
    hide AfterLast, Strip, PREFIXES, IsSpace, Small, Contains, OccursAt, Occurs;
    var sep := PREFIXES[p];
    AfterLastIs(text, sep);
    var r := AfterLast(text, sep);
    if i: nat :| SplitAt(text, sep, i, r) {
      assert i + |sep| <= |text| by { SplitEnds(text, sep, i, r); }
      SmallSlice(text, i + |sep|, |text|);
      assert text[i + |sep|..] == text[i + |sep|..|text|];
    }
    StripIs(r);
    var i: nat, j: nat :| CoreAt(r, Strip(r), i, j);
    SmallSlice(r, i, j);
  }

  lemma SplitEnds(s: string, sep: string, i: nat, t: string)
    requires SplitAt(s, sep, i, t)
    ensures i + |sep| <= |s|
  {}

  lemma PrefixesAre()
    ensures |PREFIXES| == 8
    ensures PREFIXES[0] == "city permit:" && PREFIXES[1] == "event permit:" && PREFIXES[2] == "vehicle class license:"
    ensures PREFIXES[3] == "vehicle category permit:" && PREFIXES[4] == "vehicle permit:"
    ensures PREFIXES[5] == "ability permit:" && PREFIXES[6] == "part category permit:" && PREFIXES[7] == "part permit:"
  {}

  lemma RestAnnounced(description: string, p: nat, t: string)
    requires p < |PREFIXES| == 8 && PREFIXES[p] != ""
    ensures var text := Lower(description);
            && (Announces(text, p, t)
                <==> (forall k :: 0 <= k < p ==> !Contains(text, PREFIXES[k])) && Contains(text, PREFIXES[p])
                     && t == Rest(text, p))
            && Lower(Rest(text, p)) == Rest(text, p)
            && Lower(Underscored(Rest(text, p))) == Underscored(Rest(text, p))
  {
    hide Contains, AfterLast, Strip, Lower, Underscored, Announces, PREFIXES;
    AnnouncesIs(Lower(description), p, t);
    LoweredIsSmall(description);
    RestIsSmall(Lower(description), p);
    SmallFixed(Rest(Lower(description), p));
  }

  /** Which prefix the reducer finds first. */
  predicate FirstFound(text: string, p: nat)
    requires p < |PREFIXES|
  {
    (forall k :: 0 <= k < p ==> !Contains(text, PREFIXES[k])) && Contains(text, PREFIXES[p])
  }

  function Read(text: string, p: nat): Unlock
    requires p < |PREFIXES| == 8 && PREFIXES[p] != ""
  {
    var t := Rest(text, p);
    if p == 0 then City(Lower(Underscored(t)))
    else if p == 1 then Race(t)
    else if p == 2 then VehicleClass(Upper(t))
    else if p == 3 then VehicleCategory(Lower(t))
    else if p == 4 then Vehicle(Underscored(Lower(t)))
    else if p == 5 then Ability(Lower(t))
    else if p == 6 then PartCategory(Lower(t))
    else Part(t)
  }

  lemma UnlockOfReads(description: string, u: Unlock)
    requires |PREFIXES| == 8 && forall p :: 0 <= p < 8 ==> PREFIXES[p] != ""
    ensures var text := Lower(description);
            u in UnlockOf(description) <==> exists p :: 0 <= p < 8 && FirstFound(text, p) && u == Read(text, p)
  {
    hide Contains, AfterLast, Strip, Lower, Underscored, Upper, PREFIXES;
    PrefixesAre();
    var text := Lower(description);
    if p :| 0 <= p < 8 && FirstFound(text, p) && u == Read(text, p) {
      assert forall k :: 0 <= k < p ==> !Contains(text, PREFIXES[k]);
      assert u in UnlockOf(description);
    }
    if u in UnlockOf(description) {
      var p := if Contains(text, PREFIXES[0]) then 0 else if Contains(text, PREFIXES[1]) then 1
               else if Contains(text, PREFIXES[2]) then 2 else if Contains(text, PREFIXES[3]) then 3
               else if Contains(text, PREFIXES[4]) then 4 else if Contains(text, PREFIXES[5]) then 5
               else if Contains(text, PREFIXES[6]) then 6 else 7;
      assert FirstFound(text, p) && u == Read(text, p);
    }
  }

  lemma ReadIs(description: string, p: nat, u: Unlock)
    requires p < |PREFIXES| == 8 && PREFIXES[p] != ""
    ensures var text := Lower(description);
            FirstFound(text, p) && u == Read(text, p) <==> KindOf(u) == p && Unlocking(text, u)
  {
    hide Contains, AfterLast, Strip, Lower, Underscored, Upper, Announces, PREFIXES, InSnakeCase, InUpperCase;
    var text := Lower(description);
    var t := Rest(text, p);
    RestAnnounced(description, p, t);
    RestAnnounced(description, p, u.name);
    CaseIs(t, u.name);
    forall t'
      ensures Announces(text, p, t') <==> FirstFound(text, p) && t' == t
    {
      RestAnnounced(description, p, t');
    }
  }

  function KindOf(u: Unlock): nat {
    match u
    case City(_) => 0 case Race(_) => 1 case VehicleClass(_) => 2 case VehicleCategory(_) => 3
    case Vehicle(_) => 4 case Ability(_) => 5 case PartCategory(_) => 6 case Part(_) => 7
  }

  /** The reducer's chain of branches, read as above. */
  lemma UnlockOfIff(description: string, u: Unlock)
    ensures u in UnlockOf(description) <==> Unlocking(Lower(description), u)
  {
    hide Contains, Lower, Unlocking, UnlockOf, PREFIXES, Read, FirstFound, Unbordered;
    PrefixesAre();
    UnlockOfReads(description, u);
    forall p | 0 <= p < 8
      ensures FirstFound(Lower(description), p) && u == Read(Lower(description), p)
              <==> KindOf(u) == p && Unlocking(Lower(description), u)
    {
      ReadIs(description, p, u);
    }
    var k := KindOf(u);
    assert 0 <= k < 8;
    assert Unlocking(Lower(description), u) ==> FirstFound(Lower(description), k) && u == Read(Lower(description), k);
  }

  lemma LoweredIsSmall(s: string)
    ensures Small(Lower(s))
  {}

  lemma CaseIs(t: string, n: string)
    ensures InSnakeCase(t, n) <==> n == Underscored(t)
    ensures InUpperCase(t, n) <==> n == Upper(t)
  {
    hide Mapped, UpperChar;
    UpperIs(t);
    if InUpperCase(t, n) {
      forall i | 0 <= i < |t|
        ensures n[i] == Upper(t)[i]
      {
        MappedOnce(t[i], n[i], Upper(t)[i]);
      }
    }
  }

  lemma MappedOnce(c: char, d: char, d': char)
    requires Mapped(c, d, SMALLS, CAPITALS) && Mapped(c, d', SMALLS, CAPITALS)
    ensures d == d'
  {
    hide CAPITALS, SMALLS;
    Alphabet();
  }

  lemma LowerCaseIs(s: string, d: string)
    ensures InLowerCase(s, d) <==> d == Lower(s)
  {
    hide Mapped, LowerChar;
    LowerIs(s);
    if InLowerCase(s, d) {
      forall i | 0 <= i < |s|
        ensures d[i] == Lower(s)[i]
      {
        LoweredOnce(s[i], d[i], Lower(s)[i]);
      }
    }
  }

  lemma LoweredOnce(c: char, d: char, d': char)
    requires Mapped(c, d, CAPITALS, SMALLS) && Mapped(c, d', CAPITALS, SMALLS)
    ensures d == d'
  {
    hide CAPITALS, SMALLS;
    Alphabet();
  }

  ghost predicate GateUnlocks(seed: Seed, cs: ClientState, gate: Gate, u: Unlock) {
    && Passes(gate, OwnedNames(seed, cs.instances), Counts(seed, cs.instances), seed.locationTable, cs.checked)
    && exists text :: InLowerCase(gate.description, text) && Unlocking(text, u)
  }

  /** Something is unlocked if and only if some passing gate announces it. */
  lemma UnlockedIff(seed: Seed, cs: ClientState, u: Unlock)
    ensures u in Reduce(seed, cs).unlocks
            <==> exists g :: 0 <= g < |seed.gates| && GateUnlocks(seed, cs, seed.gates[g], u)
  {
    hide OwnedNames, Counts, Passes, Unlocks, UnlockOf, Unlocking, Lower, InLowerCase;
    var owned, counts := OwnedNames(seed, cs.instances), Counts(seed, cs.instances);
    UnlocksAre(seed, seed.gates, owned, counts, cs.checked, u);
    forall g | 0 <= g < |seed.gates|
      ensures GateUnlocks(seed, cs, seed.gates[g], u)
              <==> OpensTo(seed, seed.gates[g], owned, counts, cs.checked, u)
    {
      var description := seed.gates[g].description;
      UnlockOfIff(description, u);
      forall text
        ensures InLowerCase(description, text) <==> text == Lower(description)
      {
        LowerCaseIs(description, text);
      }
    }
  }

  predicate OpensTo(seed: Seed, gate: Gate, owned: set<string>, counts: map<string, nat>, checked: set<LocationId>,
                    u: Unlock) {
    Passes(gate, owned, counts, seed.locationTable, checked) && u in UnlockOf(gate.description)
  }

  lemma {:induction false} UnlocksAre(seed: Seed, gates: seq<Gate>, owned: set<string>, counts: map<string, nat>,
                                      checked: set<LocationId>, u: Unlock)
    ensures u in Unlocks(seed, gates, owned, counts, checked)
            <==> exists g :: 0 <= g < |gates| && OpensTo(seed, gates[g], owned, counts, checked, u)
  {
    if gates != [] {
      hide UnlockOf, Passes, OpensTo, Unlocks;
      var n := |gates| - 1;
      LastOpens(seed, gates, owned, counts, checked, u);
      UnlocksAre(seed, gates[..n], owned, counts, checked, u);
      if g :| 0 <= g < n && OpensTo(seed, gates[..n][g], owned, counts, checked, u) {
        assert OpensTo(seed, gates[g], owned, counts, checked, u);
      }
      if g :| 0 <= g < n && OpensTo(seed, gates[g], owned, counts, checked, u) {
        assert OpensTo(seed, gates[..n][g], owned, counts, checked, u);
      }
    }
  }

  lemma LastOpens(seed: Seed, gates: seq<Gate>, owned: set<string>, counts: map<string, nat>, checked: set<LocationId>,
                  u: Unlock)
    requires gates != []
    ensures var n := |gates| - 1;
            u in Unlocks(seed, gates, owned, counts, checked)
            <==> u in Unlocks(seed, gates[..n], owned, counts, checked)
                 || OpensTo(seed, gates[n], owned, counts, checked, u)
  {
    hide UnlockOf, Passes;
  }

  // ---- Grants ------------------------------------------------------------

  const GRANT: string := "Vehicle Grant:"

  /** The item name grants this vehicle: the text behind the last prefix, stripped,
      in small letters and with underscores. */
  ghost predicate NamesVehicle(name: string, vehicle: string) {
    exists r, t, small ::
      LastPart(name, GRANT, r) && Stripped(r, t) && InLowerCase(t, small) && InSnakeCase(small, vehicle)
  }

  lemma NamesVehicleIs(name: string, vehicle: string)
    ensures NamesVehicle(name, vehicle)
            <==> Contains(name, GRANT) && vehicle == Underscored(Lower(Strip(AfterLast(name, GRANT))))
  {
    hide Contains, AfterLast, Strip, LastPart, Stripped, Occurs, Lower, Underscored, InLowerCase, InSnakeCase;
    hide Unbordered;
    GrantUnbordered();
    hide GRANT;
    AfterLastIs(name, GRANT);
    ContainsIff(name, GRANT);
    var t := Strip(AfterLast(name, GRANT));
    StripIs(AfterLast(name, GRANT));
    LowerCaseIs(t, Lower(t));
    CaseIs(Lower(t), vehicle);
    if r, t', small :| LastPart(name, GRANT, r) && Stripped(r, t') && InLowerCase(t', small)
                       && InSnakeCase(small, vehicle) {
      LastPartUnique(name, GRANT, r);
      StripUnique(r, t');
      LowerCaseIs(t', small);
      CaseIs(small, vehicle);
    }
  }

  lemma GrantUnbordered()
    ensures GRANT != "" && Unbordered(GRANT)
  {
    hide Unbordered;
    LastCharOnce(GRANT);
  }

  ghost predicate GrantedBy(seed: Seed, entry: (int, set<int>), g: Grant) {
    g.index in entry.1 && entry.0 in seed.itemTable && NamesVehicle(seed.itemTable[entry.0], g.vehicle)
  }

  /** A vehicle instance is granted if and only if an item that names the vehicle was
      received at that index. */
  lemma GrantedIff(seed: Seed, cs: ClientState, g: Grant)
    ensures g in Reduce(seed, cs).grants
            <==> exists i :: 0 <= i < |cs.instances| && GrantedBy(seed, cs.instances[i], g)
  {
    hide GrantsOf, NamesVehicle, Contains, AfterLast, Strip, Lower, Underscored, Unlocks, OwnedNames, Counts;
    GrantsAt(seed, cs.instances, g.vehicle, g.index);
    forall i | 0 <= i < |cs.instances|
      ensures GrantedBy(seed, cs.instances[i], g)
              <==> Grants(seed, cs.instances[i].0) && GrantedVehicle(seed, cs.instances[i].0) == g.vehicle
                   && g.index in cs.instances[i].1
    {
      if cs.instances[i].0 in seed.itemTable {
        NamesVehicleIs(seed.itemTable[cs.instances[i].0], g.vehicle);
      }
    }
    assert Grant(g.vehicle, g.index) == g;
  }

  // ---- Tiers, goal, money, garage ----------------------------------------

  /** A checked location whose name, in small letters, contains the logo mark. */
  ghost predicate IsLogo(seed: Seed, checked: set<LocationId>, id: LocationId) {
    && id in checked && Find(seed.locationTable, id).Some?
    && exists text :: InLowerCase(Find(seed.locationTable, id).value, text) && Occurs(text, "logo_collected")
  }

  /** The logos that count for the tiers are exactly these. */
  lemma LogosAre(seed: Seed, checked: set<LocationId>, id: LocationId)
    ensures id in Logos(seed, checked) <==> IsLogo(seed, checked, id)
  {
    hide Contains, Lower, InLowerCase, Occurs, Find;
    if id in checked && Find(seed.locationTable, id).Some? {
      var name := Find(seed.locationTable, id).value;
      ContainsIff(Lower(name), LOGO);
      forall text
        ensures InLowerCase(name, text) <==> text == Lower(name)
      {
        LowerCaseIs(name, text);
      }
    }
  }

  /** A tier is given at twelve, twenty-four and thirty-six logos, when its item was
      received or the rewards are not randomised. */
  lemma TierIff(seed: Seed, cs: ClientState, tier: string)
    ensures tier in Reduce(seed, cs).tiers
            <==> && (Owned(seed, cs.instances, tier) || !seed.collectibleRandomization)
                 && ((tier == "12_logos" && |Logos(seed, cs.checked)| >= 12)
                     || (tier == "24_logos" && |Logos(seed, cs.checked)| >= 24)
                     || (tier == "36_logos" && |Logos(seed, cs.checked)| >= 36))
  {
    hide Logos, Unlocks, OwnedNames, Counts, GrantsOf;
  }

  /** The id of the first location of this name has been checked, if there is one. */
  ghost predicate FirstChecked(table: LocationTable, checked: set<LocationId>, name: string) {
    forall j :: 0 <= j < |table| && table[j].1 == name && (forall k :: 0 <= k < j ==> table[k].1 != name) ==>
      table[j].0 in checked
  }

  /** The goal is reached with its item, or, where it names locations, once all of
      them that the seed knows have been checked. */
  lemma GoalIff(seed: Seed, cs: ClientState)
    ensures Reduce(seed, cs).goalCompleted
            <==> || (seed.goal.itemName != "" && Owned(seed, cs.instances, seed.goal.itemName))
                 || (seed.goal.requiredLocations != []
                     && forall i :: 0 <= i < |seed.goal.requiredLocations| ==>
                          FirstChecked(seed.locationTable, cs.checked, seed.goal.requiredLocations[i]))
  {
    hide Logos, Unlocks, OwnedNames, Counts, GrantsOf, LocIdFromName, FirstChecked, Owned;
    var names := seed.goal.requiredLocations;
    forall i | 0 <= i < |names|
      ensures FirstChecked(seed.locationTable, cs.checked, names[i])
              <==> LocIdFromName(seed.locationTable, names[i]).None?
                   || LocIdFromName(seed.locationTable, names[i]).value in cs.checked
    {
      FirstCheckedIs(seed.locationTable, cs.checked, names[i]);
    }
  }

  lemma FirstCheckedIs(table: LocationTable, checked: set<LocationId>, name: string)
    ensures FirstChecked(table, checked, name)
            <==> LocIdFromName(table, name).None? || LocIdFromName(table, name).value in checked
  {
    LocIdIsFirst(table, name);
    if LocIdFromName(table, name).Some? {
      var i :| 0 <= i < |table| && table[i] == (LocIdFromName(table, name).value, name)
               && forall j :: 0 <= j < i ==> table[j].1 != name;
    }
  }

  /** The five money packs by name, and the garage limit between 30 and 60. */
  lemma MoneyAndGarageAre(seed: Seed, cs: ClientState)
    ensures Reduce(seed, cs).money
            == 500 * CountOf(seed, cs.instances, "Money Pack: $500")
               + 1000 * CountOf(seed, cs.instances, "Money Pack: $1,000")
               + 5000 * CountOf(seed, cs.instances, "Money Pack: $5,000")
               + 10000 * CountOf(seed, cs.instances, "Money Pack: $10,000")
               + 50000 * CountOf(seed, cs.instances, "Money Pack: $50,000")
    ensures var slots := 30 + CountOf(seed, cs.instances, "Progressive Garage Slot");
            Reduce(seed, cs).garageSlots == if slots > 60 then 60 else slots
  {
    hide Logos, Unlocks, OwnedNames, Counts, GrantsOf, CountOf;
  }
}
