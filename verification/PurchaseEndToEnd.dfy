/** The Python side and the machine code together. */
module PurchaseEndToEnd {
  import opened MipsDisasm
  import opened MipsAssembler
  import opened EeMemory
  import opened EeMachine
  import opened HookPurchase
  import opened RingLayout
  import opened Vehicles
  import opened Permits
  import DetectHook
  import DenyGate
  import PurchaseRing
  import PurchaseDelivery
  import opened Options

  // ---- Permits -----------------------------------------------------------

  /** This one call of the game's index lookup returned by the calling convention
      and left the permit mailbox alone. */
  ghost predicate LookedUp(c: Cpu, r: Cpu) {
    AbiReturn(c, r, 32, DenyGate.DENY) && SameWithin(c.mem, r.mem, ENFORCE_FLAG, PERMIT_TABLE + PERMIT_SIZE)
  }

  /** It answered with the catalog index of the vehicle that the record in a0
      names, if the catalog has that name; for other names it may answer anything. */
  ghost predicate AnswersByName(c: Cpu, r: Cpu, vs: seq<Vehicle>) {
    forall i :: 0 <= i < |vs| && vs[i].name == SelectedName(c) ==> r.Get(V0) == i
  }

  /** The name of the selected record, as a purchase event reports it. */
  function SelectedName(c: Cpu): string {
    PurchaseRing.ResolveName(c.mem, c.Get(A0))
  }

  /** The purchase went through as the caller asked, and memory is the lookup's own. */
  ghost predicate Allowed(s: Cpu, r: Cpu, f: Cpu) {
    f.Get(A2) == s.Get(A2) && f.mem == r.mem
  }

  /** The purchase was cancelled: ok-to-buy is 0, the pending flag is cleared, and
      the rest of memory is the lookup's own. */
  ghost predicate Cancelled(f: Cpu, r: Cpu) {
    f.Get(A2) == 0 && f.mem == Wr8(r.mem, PENDING_FLAG, 0)
  }

  /** With the table written by `set_vehicle_permits` and enforcement on, the
      assembled gate lets a purchase through exactly if the index answered for it,
      one that the table covers, is that of an allowed vehicle. */
  lemma PermitsEnforced(g: Game, s0: Cpu, allowed: set<nat>) returns (c: Cpu, f: Cpu, n: nat)
    requires DenyGate.Entered(g, s0) && g.entry == CARCFG_INDEX_FN
    requires s0.Get(SP) <= ENFORCE_FLAG || PERMIT_TABLE + PERMIT_SIZE + 32 <= s0.Get(SP)
    requires TableHolds(s0.mem, allowed, true)
    ensures Run(g, s0, 17) == Some(c) && c.pc == CARCFG_INDEX_FN && c.Get(A0) == DenyGate.RecPtr(c)
    ensures LookedUp(c, g.body(c)) ==>
              Run(g, s0, n) == Some(f) && DenyGate.AtUISet(f) && DenyGate.CallKept(s0, f)
    ensures LookedUp(c, g.body(c)) && g.body(c).Get(V0) < PERMIT_SIZE ==>
              if g.body(c).Get(V0) in allowed then Allowed(s0, g.body(c), f) else Cancelled(f, g.body(c))
  {
    hide Run, Rd8, DenyGate.Entered, AbiReturn, DenyGate.CallKept, W;
    c, f, n := DenyGate.DenyGateOn(g, s0);
    var r := g.body(c);
    if LookedUp(c, r) && r.Get(V0) < PERMIT_SIZE {
      var i := r.Get(V0);
      var a := PERMIT_TABLE + i;
      assert PermitAt(s0.mem, i) == if i in allowed then 1 else 0;
      assert Rd8(c.mem, a) == Rd8(s0.mem, a);
      assert Rd8(r.mem, a) == Rd8(c.mem, a);
      assert DenyGate.PermitByte(r.mem, i) == Rd8(r.mem, a);
    }
  }

  /** End to end, by name: for every catalog of distinctly named vehicles, after
      `set_vehicle_permits(names)` the purchase of a record that names one of the
      first 96 goes through exactly if its name is among the allowed names. */
  lemma PermitsEnforcedByName(g: Game, s0: Cpu, vs: seq<Vehicle>, names: set<string>) returns (c: Cpu, f: Cpu, n: nat)
    requires DenyGate.Entered(g, s0) && g.entry == CARCFG_INDEX_FN
    requires s0.Get(SP) <= ENFORCE_FLAG || PERMIT_TABLE + PERMIT_SIZE + 32 <= s0.Get(SP)
    requires TableHolds(s0.mem, AllowedIndices(vs, names), true)
    requires forall j, k :: 0 <= j < k < |vs| ==> vs[j].name != vs[k].name
    ensures Run(g, s0, 17) == Some(c) && c.pc == CARCFG_INDEX_FN && c.Get(A0) == DenyGate.RecPtr(c)
    ensures LookedUp(c, g.body(c)) && AnswersByName(c, g.body(c), vs) ==>
              && Run(g, s0, n) == Some(f) && DenyGate.AtUISet(f) && DenyGate.CallKept(s0, f)
              && ((exists i :: 0 <= i < |vs| && i < PERMIT_SIZE && vs[i].name == SelectedName(c)) ==>
                    if SelectedName(c) in names then Allowed(s0, g.body(c), f) else Cancelled(f, g.body(c)))
  {
    hide Run, DenyGate.Entered, LookedUp, DenyGate.CallKept, SelectedName, TableHolds, Allowed, Cancelled;
    c, f, n := PermitsEnforced(g, s0, AllowedIndices(vs, names));
    if i :| 0 <= i < |vs| && i < PERMIT_SIZE && vs[i].name == SelectedName(c) {
      DistinctNames(vs, names, i);
    }
  }

  /** The same for a catalog that stands in memory when the permits are set: the record
      whose name is that of entry i goes through exactly if that name is allowed. */
  lemma PermitsEnforcedInMemory(g: Game, s0: Cpu, m: Memory, vs: seq<Vehicle>, names: set<string>, i: nat, name: string)
      returns (c: Cpu, f: Cpu, n: nat)
    requires DenyGate.Entered(g, s0) && g.entry == CARCFG_INDEX_FN
    requires s0.Get(SP) <= ENFORCE_FLAG || PERMIT_TABLE + PERMIT_SIZE + 32 <= s0.Get(SP)
    requires CatalogAt(m, vs) && TableHolds(s0.mem, AllowedIndices(vs, names), true)
    requires forall j, k :: 0 <= j < k < |vs| ==> vs[j].name != vs[k].name
    requires i < |vs| && i < PERMIT_SIZE
    requires PurchaseRing.IsCString(m, Rd32(m, Rd32(m, 0x006E_0170) + 0x1C * i), 32, name)
    ensures Run(g, s0, 17) == Some(c) && c.pc == CARCFG_INDEX_FN && c.Get(A0) == DenyGate.RecPtr(c)
    ensures LookedUp(c, g.body(c)) && AnswersByName(c, g.body(c), vs)
            && 0x0010_0000 < c.Get(A0) < 0x0200_0000 && PurchaseRing.IsCString(c.mem, c.Get(A0) + 0xDF, 32, name) ==>
              && Run(g, s0, n) == Some(f) && DenyGate.AtUISet(f) && DenyGate.CallKept(s0, f)
              && if name in names then Allowed(s0, g.body(c), f) else Cancelled(f, g.body(c))
  {
    hide Run, Rd8, Rd32, DenyGate.Entered, LookedUp, DenyGate.CallKept, TableHolds, Allowed, Cancelled, AnswersByName;
    hide PurchaseRing.IsCString, PurchaseRing.ResolveName;
    c, f, n := PermitsEnforcedByName(g, s0, vs, names);
    PurchaseRing.ResolveNameIs(c.mem, c.Get(A0), name);
    assert vs[i].name == name by {
      PurchaseRing.CStringUnique(m, vs[i].namePtr, 32, vs[i].name);
      PurchaseRing.CStringUnique(m, vs[i].namePtr, 32, name);
    }
  }

  /** With enforcement off every purchase goes through, whatever the table holds. */
  lemma EnforcementOff(g: Game, s0: Cpu, allowed: set<nat>) returns (f: Cpu)
    requires DenyGate.Entered(g, s0) && TableHolds(s0.mem, allowed, false)
    ensures Run(g, s0, 8) == Some(f) && DenyGate.AtUISet(f) && DenyGate.CallKept(s0, f) && Allowed(s0, s0, f)
  {
    hide Run, DenyGate.Entered, DenyGate.CallKept;
    f := DenyGate.DenyGateOff(g, s0);
  }

  /** The byte the gate reads for an index is one that `apply` writes only for
      the 96 indices of the table (and for 2^32 - 4, which lands on the flag):
      for any other index, such as -1 for an unknown vehicle, the decision does
      not depend on the allow set. */
  lemma ApplyReachesIndex(index: Word)
    ensures var a := W(PERMIT_TABLE + index);
            (a == ENFORCE_FLAG || PERMIT_TABLE <= a < PERMIT_TABLE + PERMIT_SIZE)
            <==> index < PERMIT_SIZE || index == 0xFFFF_FFFC
  {}

  lemma UnlistedIndexIgnoresPermits(m: Memory, m': Memory, index: Word)
    requires OnlyPermits(m, m') && index >= PERMIT_SIZE && index != 0xFFFF_FFFC
    ensures DenyGate.PermitByte(m', index) == DenyGate.PermitByte(m, index)
  {
    hide Rd8, W;
    ApplyReachesIndex(index);
  }

  // ---- Purchases ---------------------------------------------------------

  /** Installing writes the assembled bytes: the trampoline is then loaded. */
  lemma InstallLoadsDetect(m: Memory)
    ensures Resolvable(DETECT_OPS, map[])
    ensures DetectHook.DETECT.LoadedIn(WrBytes(m, DETECT_TRAMP, Bytes(Linked(DETECT_OPS, DETECT_TRAMP, map[]))))
  {
    hide Linked, Bytes, WrBytes;
    DetectLinks();
    WriteLoads(m, DETECT_TRAMP, Linked(DETECT_OPS, DETECT_TRAMP, map[]));
  }

  lemma InstallLoadsDeny(m: Memory)
    ensures Resolvable(DENY_OPS, DENY_LABELS)
    ensures DenyGate.DENY.LoadedIn(WrBytes(m, DENY_TRAMP, Bytes(Linked(DENY_OPS, DENY_TRAMP, DENY_LABELS))))
  {
    hide Linked, Bytes, WrBytes;
    DenyLinks();
    WriteLoads(m, DENY_TRAMP, Linked(DENY_OPS, DENY_TRAMP, DENY_LABELS));
  }

  /** The machine enters the installed detect trampoline. */
  ghost predicate DetectEntered(g: Game, s: Cpu) {
    && s.pc == DETECT_TRAMP && s.npc == DETECT_TRAMP + 4
    && Resolvable(DETECT_OPS, map[]) && DetectHook.DETECT.LoadedIn(s.mem)
    && (g.entry < DETECT_TRAMP || DetectHook.DETECT.End() <= g.entry)
    && s.Get(A0) % 4 == 0
  }

  /** One execution of the installed trampoline is one purchase step of the
      delivery runs. */
  lemma TrampolineIsPurchase(g: Game, s0: Cpu, seen: nat, out: seq<Record>, reports: seq<PurchaseRing.VehiclePurchase>)
      returns (f: Cpu)
    requires DetectEntered(g, s0)
    ensures Run(g, s0, 25) == Some(f) && f.pc == SPEND_MONEY
    ensures PurchaseDelivery.Step(
              PurchaseDelivery.System(s0.mem, seen, out, reports),
              PurchaseDelivery.Purchase(DetectHook.RecPtr(s0, s0.Get(A0)), W(Rd32(s0.mem, WALLET) - s0.Get(A1)),
                                        Rd32(s0.mem, WALLET)),
              PurchaseDelivery.System(f.mem, seen, out, reports))
  {
    hide Run, Rd32, Appended, CodeAt;
    f := DetectHook.DetectHookAppends(g, s0);
  }

  /** After one execution a reader that was in step drains exactly one purchase: the
      money spent, exactly when it fits 32 signed bits, the wallet before, the next
      ordinal, and the name at 0xDF behind the selected record. */
  lemma OnePurchaseDrained(g: Game, s0: Cpu) returns (f: Cpu, p: PurchaseRing.VehiclePurchase)
    requires DetectEntered(g, s0) && Count(s0.mem) < 0xFFFF_FFFF
    ensures Run(g, s0, 25) == Some(f) && f.pc == SPEND_MONEY
    ensures PurchaseRing.ToPurchases(f.mem, PurchaseRing.DrainRecords(f.mem, Count(s0.mem))) == [p]
    ensures p.walletBefore == Rd32(s0.mem, 0x0080_0870) && p.ordinal == Rd32(s0.mem, 0x0072_0B00) + 1
    ensures var spent := Rd32(s0.mem, 0x0080_0870) - s0.Get(A1);
            p.amount == spent <==> -0x8000_0000 <= spent < 0x8000_0000
    ensures var selected := Rd32(s0.mem, W(s0.Get(A0) + 0x072C));
            var record := Rd32(s0.mem, W(W(s0.Get(A0) + 4 * selected) + 0x071C));
            if 0x0010_0000 < record < 0x0200_0000 then PurchaseRing.IsCString(f.mem, record + 0xDF, 32, p.vehicleName)
            else p.vehicleName == ""
  {
    hide Run, Rd32, Rd8, CodeAt, W, RecordAt, PurchaseRing.ToPurchase;
    f := DetectHook.DetectHookAppends(g, s0);
    var rs := PurchaseRing.DrainRecords(f.mem, Count(s0.mem));
    PurchaseDelivery.SlotOfHead(NextSlot(s0.mem));
    assert |rs| == 1 && rs[0] == RecordAt(f.mem, NextSlot(s0.mem));
    p := PurchaseRing.ToPurchases(f.mem, rs)[0];
    AmountIs(p.amount, Rd32(s0.mem, WALLET) - s0.Get(A1), rs[0].amount);
  }

  lemma AmountIs(amount: int, spent: int, word: Word)
    requires -0x8000_0000 <= amount < 0x8000_0000 && amount % 0x1_0000_0000 == word == W(spent)
    ensures amount == spent <==> -0x8000_0000 <= spent < 0x8000_0000
  {}
}
