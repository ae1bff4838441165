/** Cross references found in the code image without running it
    (tools/static_xref.py): JAL callers, and lui + low-half pairs that form an
    address. */
module StaticXref {
  import opened Bits
  import opened MipsDisasm
  import opened EeMemory
  import opened EeMachine
  import Hooks = HookManager
  import Tables = DisasmTables
  import opened Options

  const ELF_BASE: nat := 0x0010_0000
  const TEXT_END: nat := 0x0071_5BC0

  /** How many words of the image are searched. */
  function Limit(ws: seq<Word>): (n: nat)
    ensures n <= |ws| && n <= (TEXT_END - ELF_BASE) / 4
    ensures forall i: nat :: i < n <==> i < |ws| && 0x0010_0000 + 4 * i < 0x0071_5BC0
  {
    if |ws| < (TEXT_END - ELF_BASE) / 4 then |ws| else (TEXT_END - ELF_BASE) / 4
  }

  function Site(i: nat): nat {
    ELF_BASE + 4 * i
  }

  /** The sites below n where p holds, in increasing order. */
  ghost function SitesWhere(p: nat -> bool, n: nat): seq<nat> {
    if n == 0 then [] else SitesWhere(p, n - 1) + if p(n - 1) then [Site(n - 1)] else []
  }

  ghost predicate SiteOf(p: nat -> bool, n: nat, a: nat) {
    exists i: nat :: i < n && p(i) && a == Site(i)
  }

  lemma {:induction false} SitesExact(p: nat -> bool, n: nat)
    ensures forall a :: a in SitesWhere(p, n) <==> SiteOf(p, n, a)
    ensures forall i, j :: 0 <= i < j < |SitesWhere(p, n)| ==> SitesWhere(p, n)[i] < SitesWhere(p, n)[j] < Site(n)
    ensures forall i :: 0 <= i < |SitesWhere(p, n)| ==> SitesWhere(p, n)[i] < Site(n)
  {
    if n > 0 {
      SitesExact(p, n - 1);
      forall a
        ensures a in SitesWhere(p, n) <==> SiteOf(p, n, a)
      {
        assert SiteOf(p, n, a) <==> SiteOf(p, n - 1, a) || (p(n - 1) && a == Site(n - 1));
      }
    }
  }

  lemma {:induction false} SitesAgree(p: nat -> bool, q: nat -> bool, n: nat)
    requires forall i: nat :: i < n ==> p(i) == q(i)
    ensures SitesWhere(p, n) == SitesWhere(q, n)
  {
    if n > 0 {
      SitesAgree(p, q, n - 1);
    }
  }

  // ---- Callers -----------------------------------------------------------

  ghost function CallsTo(ws: seq<Word>, target: nat): nat -> bool {
    (i: nat) => i < |ws| && ws[i] == Hooks.EncodeJal(target)
  }

  method FindCallers(ws: seq<Word>, target: nat) returns (callers: seq<nat>)
    ensures callers == SitesWhere(CallsTo(ws, target), Limit(ws))
  {
    callers := [];
    for i := 0 to Limit(ws)
      invariant callers == SitesWhere(CallsTo(ws, target), i)
    {
      if ws[i] == Hooks.EncodeJal(target) {
        callers := callers + [Site(i)];
      }
    }
  }

  /** The callers: the addresses in the text segment that hold the call. */
  lemma CallersAre(ws: seq<Word>, target: nat, a: nat)
    ensures a in SitesWhere(CallsTo(ws, target), Limit(ws))
            <==> exists i: nat :: i < |ws| && a == 0x0010_0000 + 4 * i && a < 0x0071_5BC0
                                  && ws[i] == 0x0C00_0000 + target / 4 % 0x400_0000
  {
    hide Hooks.EncodeJal, SitesWhere;
    JalWord(target);
    SitesExact(CallsTo(ws, target), Limit(ws));
    var p := CallsTo(ws, target);
    if i: nat :| i < Limit(ws) && p(i) && a == Site(i) {
      assert i < |ws| && ws[i] == 0x0C00_0000 + target / 4 % 0x400_0000 && a == 0x0010_0000 + 4 * i;
    }
    if i: nat :| i < |ws| && a == 0x0010_0000 + 4 * i && a < 0x0071_5BC0
                 && ws[i] == 0x0C00_0000 + target / 4 % 0x400_0000 {
      assert i < Limit(ws) && p(i) && a == Site(i);
    }
  }

  /** A word of the image is reported exactly when it decodes to a JAL to the
      target. */
  lemma CallerDecodesIff(pc: nat, w: Word, target: nat)
    requires pc + 4 < 0x1000_0000 && target % 4 == 0 && target < 0x1000_0000
    ensures w == Hooks.EncodeJal(target) <==> Decode(pc, w) == IJump(0x03, target)
  {
    hide Hooks.EncodeJal;
    JalWord(target);
  }

  lemma JalWord(target: nat)
    ensures Hooks.EncodeJal(target) == 0x0C00_0000 + target / 4 % 0x400_0000
  {
    hide BitOr;
    Pow2Values();
    OrDisjoint(3, target / 4 % 0x400_0000, 26);
  }

  // ---- Data references ---------------------------------------------------

  function Op(w: Word): nat { w / 0x400_0000 }
  function Rs(w: Word): Reg { w / 0x20_0000 % 32 }
  function Rt(w: Word): Reg { w / 0x1_0000 % 32 }
  function Imm(w: Word): nat { w % 0x1_0000 }

  const LUI: nat := 0x0F
  const ADDIU: nat := 0x09
  const ORI: nat := 0x0D

  predicate IsAccess(op: nat) {
    op in {0x23, 0x2B, 0x20, 0x24, 0x21, 0x25}
  }

  /** The uses of a low half, by mnemonic. */
  lemma UsesLowIff(w: Word, addr: nat)
    ensures UsesLow(w, addr)
            <==> Tables.IOps(w / 0x400_0000).Some?
                 && Tables.IOps(w / 0x400_0000).value
                    in {Tables.Addiu, Tables.Ori, Tables.Lw, Tables.Sw, Tables.Lb, Tables.Lbu, Tables.Lh, Tables.Lhu}
                 && w % 0x1_0000 == addr % 0x1_0000
  {}

  /** The upper half lui must have set; all but ori sign-extend the lower half. */
  function WantHigh(addr: nat, op: nat): nat {
    (addr / 0x1_0000 + if op != ORI && addr % 0x1_0000 >= 0x8000 then 1 else 0) % 0x1_0000
  }

  predicate UsesLow(w: Word, addr: nat) {
    (Op(w) == ADDIU || Op(w) == ORI || IsAccess(Op(w))) && Imm(w) == addr % 0x1_0000
  }

  predicate Pairs(lui: Word, use: Word, addr: nat) {
    Op(lui) == LUI && Rt(lui) == Rs(use) && Imm(lui) == WantHigh(addr, Op(use))
  }

  /** The simple definition: a use of the low half, and a matching lui within
      the window before it. */
  ghost predicate IsRef(ws: seq<Word>, addr: nat, window: int, i: nat) {
    && i < |ws| && UsesLow(ws[i], addr)
    && exists j: nat :: j < i && i - j <= window && Pairs(ws[j], ws[i], addr)
  }

  ghost function RefAt(ws: seq<Word>, addr: nat, window: int): nat -> bool {
    (i: nat) => IsRef(ws, addr, window, i)
  }

  /** The lui instructions below n. */
  datatype LuiSite = LuiSite(index: nat, reg: Reg, high: nat)

  ghost function LuiSites(ws: seq<Word>, n: nat): (s: seq<LuiSite>)
    requires n <= |ws|
    ensures |s| <= n
  {
    if n == 0 then []
    else LuiSites(ws, n - 1) + if Op(ws[n - 1]) == LUI then [LuiSite(n - 1, Rt(ws[n - 1]), Imm(ws[n - 1]))] else []
  }

  /** What the search really finds: the lui must be among the last 64 before the use. */
  ghost predicate IsKeptRef(ws: seq<Word>, addr: nat, window: int, i: nat) {
    && i < |ws| && UsesLow(ws[i], addr)
    && exists j: nat :: j < i && i - j <= window && Pairs(ws[j], ws[i], addr) && LuisFrom(ws, j, i) <= 64
  }

  ghost function KeptRefAt(ws: seq<Word>, addr: nat, window: int): nat -> bool {
    (i: nat) => IsKeptRef(ws, addr, window, i)
  }

  ghost function LuisFrom(ws: seq<Word>, j: nat, i: nat): int
    requires j <= i <= |ws|
  {
    |LuiSites(ws, i)| - |LuiSites(ws, j)|
  }

  lemma {:induction false} LuisFromBound(ws: seq<Word>, j: nat, i: nat)
    requires j <= i <= |ws|
    ensures 0 <= LuisFrom(ws, j, i) <= i - j
  {
    if j < i {
      LuisFromBound(ws, j, i - 1);
    }
  }

  /** Where a lui stands in the list of sites. */
  lemma {:induction false} LuiSiteAt(ws: seq<Word>, j: nat, i: nat)
    requires j < i <= |ws| && Op(ws[j]) == LUI
    ensures |LuiSites(ws, j)| < |LuiSites(ws, i)|
    ensures LuiSites(ws, i)[|LuiSites(ws, j)|] == LuiSite(j, Rt(ws[j]), Imm(ws[j]))
  {
    if j < i - 1 {
      LuiSiteAt(ws, j, i - 1);
    }
  }

  lemma {:induction false} LuiSiteOrigin(ws: seq<Word>, i: nat, k: nat)
    requires i <= |ws| && k < |LuiSites(ws, i)|
    ensures var s := LuiSites(ws, i)[k];
            s.index < i && Op(ws[s.index]) == LUI && s == LuiSite(s.index, Rt(ws[s.index]), Imm(ws[s.index]))
            && |LuiSites(ws, s.index)| == k
  {
    if k < |LuiSites(ws, i - 1)| {
      LuiSiteOrigin(ws, i - 1, k);
    }
  }

  lemma {:induction false} LuiSitesIncrease(ws: seq<Word>, i: nat)
    requires i <= |ws|
    ensures Increasing(LuiSites(ws, i)) && forall k :: 0 <= k < |LuiSites(ws, i)| ==> LuiSites(ws, i)[k].index < i
  {
    if i > 0 {
      LuiSitesIncrease(ws, i - 1);
    }
  }

  ghost predicate Increasing(sites: seq<LuiSite>) {
    forall k, l :: 0 <= k < l < |sites| ==> sites[k].index < sites[l].index
  }

  predicate Matches(s: LuiSite, i: nat, window: int, reg: Reg, high: nat) {
    i - s.index <= window && s.reg == reg && s.high == high
  }

  /** Backwards through the last 64 sites, giving up at the first one outside the
      window. */
  method SearchBack(sites: seq<LuiSite>, i: nat, window: int, reg: Reg, high: nat) returns (found: bool)
    requires Increasing(sites)
    ensures found <==> exists k :: |sites| - 64 <= k < |sites| && 0 <= k && Matches(sites[k], i, window, reg, high)
  {
    var low := if |sites| < 64 then 0 else |sites| - 64;
    var k := |sites|;
    while k > low
      invariant low <= k <= |sites|
      invariant forall l :: k <= l < |sites| ==> !Matches(sites[l], i, window, reg, high)
    {
      k := k - 1;
      if i - sites[k].index > window {
        assert forall l :: 0 <= l < k ==> sites[l].index < sites[k].index;
        return false;
      }
      if sites[k].reg == reg && sites[k].high == high {
        assert Matches(sites[k], i, window, reg, high);
        return true;
      }
    }
    found := false;
  }

  lemma SearchIsKeptRef(ws: seq<Word>, addr: nat, window: int, i: nat)
    requires i < |ws| && UsesLow(ws[i], addr)
    ensures var sites := LuiSites(ws, i);
            (exists k :: |sites| - 64 <= k < |sites| && 0 <= k
                         && Matches(sites[k], i, window, Rs(ws[i]), WantHigh(addr, Op(ws[i]))))
            <==> IsKeptRef(ws, addr, window, i)
  {
    hide LuiSites, WantHigh, Op, Rs, Rt, Imm;
    var sites := LuiSites(ws, i);
    if k :| |sites| - 64 <= k < |sites| && 0 <= k
            && Matches(sites[k], i, window, Rs(ws[i]), WantHigh(addr, Op(ws[i]))) {
      LuiSiteOrigin(ws, i, k);
      assert Pairs(ws[sites[k].index], ws[i], addr);
    }
    if IsKeptRef(ws, addr, window, i) {
      var j: nat :| j < i && i - j <= window && Pairs(ws[j], ws[i], addr) && LuisFrom(ws, j, i) <= 64;
      LuiSiteAt(ws, j, i);
      var k := |LuiSites(ws, j)|;
      assert Matches(sites[k], i, window, Rs(ws[i]), WantHigh(addr, Op(ws[i])));
    }
  }

  method FindDatarefs(ws: seq<Word>, addr: nat, window: int := 16) returns (hits: seq<nat>)
    ensures hits == SitesWhere(KeptRefAt(ws, addr, window), Limit(ws))
  {
    hide LuiSites, Rs, Rt, Imm, IsKeptRef;
    var low := addr % 0x1_0000;
    hits := [];
    var sites: seq<LuiSite> := [];
    assert LuiSites(ws, 0) == [] by { NoLuiSites(ws); }
    for i := 0 to Limit(ws)
      invariant sites == LuiSites(ws, i)
      invariant hits == SitesWhere(KeptRefAt(ws, addr, window), i)
    {
      LuiSitesIncrease(ws, i);
      LuiSitesSnoc(ws, i);
      NotARef(ws, addr, window, i);
      var op := Op(ws[i]);
      if op == LUI {
        sites := sites + [LuiSite(i, Rt(ws[i]), Imm(ws[i]))];
      } else if (op == ADDIU || op == ORI || IsAccess(op)) && Imm(ws[i]) == low {
        SearchIsKeptRef(ws, addr, window, i);
        var found := SearchBack(sites, i, window, Rs(ws[i]), WantHigh(addr, op));
        if found {
          hits := hits + [Site(i)];
        }
      }
    }
  }

  /** The references: addresses in the text segment that use the low half, with a
      matching lui in the window and at most 63 others between. */
  lemma DatarefsAre(ws: seq<Word>, addr: nat, window: int, a: nat)
    ensures a in SitesWhere(KeptRefAt(ws, addr, window), Limit(ws))
            <==> exists i: nat :: i < |ws| && a == 0x0010_0000 + 4 * i && a < 0x0071_5BC0
                                  && IsKeptRef(ws, addr, window, i)
  {
    hide SitesWhere, IsKeptRef;
    SitesExact(KeptRefAt(ws, addr, window), Limit(ws));
    var p := KeptRefAt(ws, addr, window);
    if i: nat :| i < Limit(ws) && p(i) && a == Site(i) {
      assert i < |ws| && IsKeptRef(ws, addr, window, i) && a == 0x0010_0000 + 4 * i;
    }
    if i: nat :| i < |ws| && a == 0x0010_0000 + 4 * i && a < 0x0071_5BC0 && IsKeptRef(ws, addr, window, i) {
      assert i < Limit(ws) && p(i) && a == Site(i);
    }
  }

  lemma NoLuiSites(ws: seq<Word>)
    ensures LuiSites(ws, 0) == []
  {}

  lemma LuiSitesSnoc(ws: seq<Word>, i: nat)
    requires i < |ws|
    ensures LuiSites(ws, i + 1)
            == LuiSites(ws, i) + if Op(ws[i]) == LUI then [LuiSite(i, Rt(ws[i]), Imm(ws[i]))] else []
  {}

  lemma NotARef(ws: seq<Word>, addr: nat, window: int, i: nat)
    requires i < |ws|
    ensures !UsesLow(ws[i], addr) ==> !IsKeptRef(ws, addr, window, i)
  {}

  /** Keeping only 64 sites loses nothing exactly for windows of at most 64. */
  lemma KeepsEveryRefIff(window: int)
    ensures (forall ws, addr ::
              SitesWhere(KeptRefAt(ws, addr, window), Limit(ws))
              == SitesWhere(RefAt(ws, addr, window), Limit(ws)))
            <==> window <= 64
  {
    if window <= 64 {
      forall ws: seq<Word>, addr: nat
        ensures SitesWhere(KeptRefAt(ws, addr, window), Limit(ws)) == SitesWhere(RefAt(ws, addr, window), Limit(ws))
      {
        forall i: nat | i < Limit(ws)
          ensures IsKeptRef(ws, addr, window, i) == IsRef(ws, addr, window, i)
        {
          if IsRef(ws, addr, window, i) {
            var j: nat :| j < i && i - j <= window && Pairs(ws[j], ws[i], addr);
            LuisFromBound(ws, j, i);
          }
        }
        SitesAgree(KeptRefAt(ws, addr, window), RefAt(ws, addr, window), Limit(ws));
      }
    } else {
      FarRef(window);
    }
  }

  // ---- A reference the search misses -------------------------------------

  const LUI_AT: Word := 0x3C01_0000
  const LUI_V0: Word := 0x3C02_0000
  const USE_AT: Word := 0x2421_0000

  /** lui at; 64 times lui v0; addiu at, at: address 0 is formed. */
  ghost function FarImage(): (ws: seq<Word>)
    ensures |ws| == 66 && ws[0] == LUI_AT && ws[65] == USE_AT && forall k :: 1 <= k < 65 ==> ws[k] == LUI_V0
  {
    [LUI_AT] + seq(64, _ => LUI_V0) + [USE_AT]
  }

  lemma {:induction false} FarLuis(n: nat)
    requires n <= 65
    ensures |LuiSites(FarImage(), n)| == n
  {
    if n > 0 {
      FarLuis(n - 1);
    }
  }

  lemma FarPairs()
    ensures Pairs(LUI_AT, USE_AT, 0) && UsesLow(USE_AT, 0) && !Pairs(LUI_V0, USE_AT, 0)
  {
    assert Op(LUI_AT) == LUI && Op(USE_AT) == ADDIU;
    assert Rt(LUI_AT) == 1 && Rt(LUI_V0) == 2 && Rs(USE_AT) == 1;
  }

  lemma FarRef(window: int)
    requires window > 64
    ensures SitesWhere(KeptRefAt(FarImage(), 0, window), Limit(FarImage()))
            != SitesWhere(RefAt(FarImage(), 0, window), Limit(FarImage()))
  {
    hide LuiSites, Pairs, UsesLow, SitesWhere;
    var ws := FarImage();
    FarLuis(65);
    FarLuis(0);
    FarPairs();
    assert IsRef(ws, 0, window, 65);
    forall j: nat | j < 65 && Pairs(ws[j], ws[65], 0)
      ensures LuisFrom(ws, j, 65) == 65
    {
      assert j == 0;
    }
    assert !IsKeptRef(ws, 0, window, 65);
    SitesExact(KeptRefAt(ws, 0, window), 66);
    SitesExact(RefAt(ws, 0, window), 66);
    assert SiteOf(RefAt(ws, 0, window), 66, Site(65));
    assert !SiteOf(KeptRefAt(ws, 0, window), 66, Site(65));
  }

  // ---- What a pair computes ----------------------------------------------

  /** The address an instruction forms: the result of addiu or ori, the address
      of a load or store. */
  function Formed(s: Cpu, i: Instr): Option<Word> {
    match i
    case IImmSigned(op, rt, rs, imm) => Some(W(s.Get(rs) + imm))
    case IImmUnsigned(op, rt, rs, imm) => if imm < 0x1_0000 then Some(OrWord(s.Get(rs), imm)) else None
    case IMem(op, rt, base, offset) => Some(W(s.Get(base) + offset))
    case _ => None
  }

  /** A use of the low half, entered with the register as the lui left it, forms
      the address exactly when the pair matches. */
  lemma PairFormsIff(pc: nat, pc': nat, lui: Word, use: Word, addr: Word, s: Cpu, t: Cpu)
    requires Op(lui) == LUI && UsesLow(use, addr) && Rt(lui) == Rs(use) && Rs(use) != ZERO
    requires Exec(Decode(pc, lui), s).Some? && t.Get(Rt(lui)) == Exec(Decode(pc, lui), s).value.Get(Rt(lui))
    ensures Formed(t, Decode(pc', use)) == Some(addr) <==> Pairs(lui, use, addr)
  {
    var high, low := Imm(lui), Imm(use);
    LuiSets(pc, lui, s);
    UseForms(pc', use, t, high, addr);
    hide Decode, Exec, Formed, W, S16;
    SumIsAddrIff(high, low, Extended(use), addr);
  }

  lemma LuiSets(pc: nat, lui: Word, s: Cpu)
    requires Op(lui) == LUI && Rt(lui) != ZERO
    ensures Exec(Decode(pc, lui), s).Some? && Exec(Decode(pc, lui), s).value.Get(Rt(lui)) == Imm(lui) * 0x1_0000
  {
    hide BitOr, BitAnd, OrWord;
    assert Decode(pc, lui) == ILui(Rt(lui), Imm(lui));
  }

  /** The low half as the instruction extends it. */
  function Extended(use: Word): int {
    if Op(use) == ORI then Imm(use) else S16(Imm(use))
  }

  lemma UseForms(pc: nat, use: Word, t: Cpu, high: nat, addr: Word)
    requires UsesLow(use, addr) && high < 0x1_0000 && t.Get(Rs(use)) == high * 0x1_0000
    ensures Formed(t, Decode(pc, use)) == Some(W(high * 0x1_0000 + Extended(use)))
  {
    hide BitOr, BitAnd, OrWord, W;
    if Op(use) == ORI {
      OrLowHalf(high * 0x1_0000, Imm(use));
      assert Decode(pc, use) == IImmUnsigned(ORI, Rt(use), Rs(use), Imm(use));
    } else if Op(use) == ADDIU {
      assert Decode(pc, use) == IImmSigned(ADDIU, Rt(use), Rs(use), S16(Imm(use)));
    } else {
      assert Decode(pc, use) == IMem(Op(use), Rt(use), Rs(use), S16(Imm(use)));
    }
  }

  lemma SumIsAddrIff(high: nat, low: nat, ext: int, addr: Word)
    requires high < 0x1_0000 && low == addr % 0x1_0000
    requires ext == low || ext == low - 0x1_0000
    ensures W(high * 0x1_0000 + ext) == addr <==> high == (addr / 0x1_0000 + if ext < 0 then 1 else 0) % 0x1_0000
  {
  }
}
