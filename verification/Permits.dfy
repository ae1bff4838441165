/** The permit table (mc3api/purchase_hook.py) and the mapping of vehicle names
    to it (client/mc3ap/adapters/pcsx2/mc3api_runtime.py). */
module Permits {
  import opened EeMemory
  import opened EeBridge
  import opened HookPurchase
  import opened Vehicles

  function PermitAt(m: Memory, i: nat): Byte {
    Rd8(m, PERMIT_TABLE + i)
  }

  /** The table holds exactly the allowed indices and the flag is set as asked. */
  ghost predicate TableHolds(m: Memory, allowed: set<nat>, enforce: bool) {
    && (forall i :: 0 <= i < PERMIT_SIZE ==> PermitAt(m, i) == if i in allowed then 1 else 0)
    && Rd8(m, ENFORCE_FLAG) == if enforce then 1 else 0
  }

  /** Every index is allowed and enforcement is off. */
  ghost predicate AllAllowed(m: Memory) {
    (forall i :: 0 <= i < PERMIT_SIZE ==> PermitAt(m, i) == 1) && Rd8(m, ENFORCE_FLAG) == 0
  }

  /** Only the flag byte and the table change. */
  ghost predicate OnlyPermits(m: Memory, m': Memory) {
    forall a: nat :: a != ENFORCE_FLAG && !(PERMIT_TABLE <= a < PERMIT_TABLE + PERMIT_SIZE) ==> Rd8(m', a) == Rd8(m, a)
  }

  lemma TableWritten(m: Memory, table: seq<Byte>, flag: Byte)
    requires |table| == PERMIT_SIZE
    ensures var m' := WrBytes(WrBytes(m, PERMIT_TABLE, table), ENFORCE_FLAG, [flag]);
            && OnlyPermits(m, m') && Rd8(m', ENFORCE_FLAG) == flag
            && forall i :: 0 <= i < PERMIT_SIZE ==> PermitAt(m', i) == table[i]
  {
    hide Rd8;
    WrBytesEffect(m, PERMIT_TABLE, table);
    var m1 := WrBytes(m, PERMIT_TABLE, table);
    WrBytesEffect(m1, ENFORCE_FLAG, [flag]);
    assert Rd8(WrBytes(m1, ENFORCE_FLAG, [flag]), ENFORCE_FLAG + 0) == flag;
  }

  class PermitTable {
    const bridge: Bridge

    constructor (bridge: Bridge)
      ensures this.bridge == bridge
    {
      this.bridge := bridge;
    }

    /** `apply`: the whole table is written on every call, so what was allowed
        before does not matter. */
    method Apply(allowed: set<nat>, enforce: bool)
      requires bridge.online
      modifies bridge`mem
      ensures TableHolds(bridge.mem, allowed, enforce) && OnlyPermits(old(bridge.mem), bridge.mem)
    {
      var table := seq<Byte>(PERMIT_SIZE, i requires 0 <= i < PERMIT_SIZE => if i in allowed then 1 else 0);
      assert forall i :: 0 <= i < PERMIT_SIZE ==> table[i] == if i in allowed then 1 else 0;
      var flag: Byte := if enforce then 1 else 0;
      TableWritten(bridge.mem, table, flag);
      bridge.mem := WrBytes(bridge.mem, PERMIT_TABLE, table);
      bridge.mem := WrBytes(bridge.mem, ENFORCE_FLAG, [flag]);
    }

    method AllowAll()
      requires bridge.online
      modifies bridge`mem
      ensures AllAllowed(bridge.mem) && OnlyPermits(old(bridge.mem), bridge.mem)
    {
      var table := seq<Byte>(PERMIT_SIZE, _ => 1);
      assert forall i :: 0 <= i < PERMIT_SIZE ==> table[i] == 1;
      TableWritten(bridge.mem, table, 0);
      bridge.mem := WrBytes(bridge.mem, PERMIT_TABLE, table);
      bridge.mem := WrBytes(bridge.mem, ENFORCE_FLAG, [0]);
    }

    method ReadEnforce() returns (enforce: bool)
      requires bridge.online
      ensures enforce <==> Rd8(bridge.mem, ENFORCE_FLAG) != 0
    {
      enforce := RdBytes(bridge.mem, ENFORCE_FLAG, 1)[0] != 0;
    }

    method DeniedIndices() returns (denied: seq<nat>)
      requires bridge.online
      ensures forall i: nat :: i in denied <==> i < PERMIT_SIZE && PermitAt(bridge.mem, i) == 0
      ensures forall j, k :: 0 <= j < k < |denied| ==> denied[j] < denied[k]
    {
      var table := RdBytes(bridge.mem, PERMIT_TABLE, PERMIT_SIZE);
      denied := [];
      for i := 0 to PERMIT_SIZE
        invariant forall k: nat :: k in denied <==> k < i && PermitAt(bridge.mem, k) == 0
        invariant forall j, k :: 0 <= j < k < |denied| ==> denied[j] < denied[k]
        invariant forall j :: 0 <= j < |denied| ==> denied[j] < i
      {
        if table[i] == 0 {
          denied := denied + [i];
        }
      }
    }
  }

  /** Vehicle i stands for its name in the name-to-index dictionary: a later
      vehicle of the same name replaces an earlier one. */
  ghost predicate NamesIndex(vs: seq<Vehicle>, i: nat) {
    i < |vs| && forall k :: i < k < |vs| ==> vs[k].name != vs[i].name
  }

  /** The indices `set_vehicle_permits` allows. */
  ghost function AllowedIndices(vs: seq<Vehicle>, names: set<string>): (r: set<nat>)
    ensures forall i: nat :: i in r <==> NamesIndex(vs, i) && vs[i].name in names
  {
    set i: nat | i < |vs| && NamesIndex(vs, i) && vs[i].name in names
  }

  /** With distinct names every vehicle is allowed by its own name. */
  lemma DistinctNames(vs: seq<Vehicle>, names: set<string>, i: nat)
    requires i < |vs| && forall j, k :: 0 <= j < k < |vs| ==> vs[j].name != vs[k].name
    ensures i in AllowedIndices(vs, names) <==> vs[i].name in names
  {}

  method NameToIndex(vs: seq<Vehicle>) returns (byName: map<string, nat>)
    requires forall i :: 0 <= i < |vs| ==> vs[i].index == i
    ensures forall n :: n in byName ==> NamesIndex(vs, byName[n]) && vs[byName[n]].name == n
    ensures forall i :: 0 <= i < |vs| ==> vs[i].name in byName
  {
    byName := map[];
    for k := 0 to |vs|
      invariant forall n :: n in byName ==> byName[n] < k && vs[byName[n]].name == n
      invariant forall n :: n in byName ==> forall j :: byName[n] < j < k ==> vs[j].name != n
      invariant forall i :: 0 <= i < k ==> vs[i].name in byName
    {
      byName := byName[vs[k].name := vs[k].index];
    }
  }

  /** `set_vehicle_permits`, up to the sorted list it returns. */
  method SetVehiclePermits(bridge: Bridge, names: set<string>, enforce: bool)
      returns (allowed: set<nat>, ghost vs: seq<Vehicle>)
    requires bridge.online
    modifies bridge`mem
    ensures CatalogIn(old(bridge.mem), vs) && CatalogAt(old(bridge.mem), vs)
    ensures allowed == AllowedIndices(vs, names)
    ensures TableHolds(bridge.mem, allowed, enforce) && OnlyPermits(old(bridge.mem), bridge.mem)
  {
    var catalog := ReadVehicles(bridge);
    var byName := NameToIndex(catalog);
    allowed := set n | n in names && n in byName :: byName[n];
    ghost var expected := AllowedIndices(catalog, names);
    assert allowed == expected by {
      forall i: nat
        ensures i in allowed <==> i in expected
      {
        if i in expected {
          var n := catalog[i].name;
          assert byName[n] == i by { SameIndex(catalog, byName[n], i); }
        }
      }
    }
    var table := new PermitTable(bridge);
    table.Apply(allowed, enforce);
    vs := catalog;
  }

  lemma SameIndex(vs: seq<Vehicle>, i: nat, j: nat)
    requires NamesIndex(vs, i) && NamesIndex(vs, j) && vs[i].name == vs[j].name
    ensures i == j
  {}
}
