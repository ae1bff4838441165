/** The assembled deny trampoline, executed around an arbitrary game function. */
module DenyGate {
  import opened MipsDisasm
  import opened MipsAssembler
  import opened EeMemory
  import opened EeMachine
  import opened HookPurchase
  import DetectHook
  import opened Options

  const DENY: Program := Program(DENY_OPS, DENY_TRAMP, DENY_LABELS)

  lemma DenySound()
    ensures DENY.Sound()
  {}

  /** Where the sections sit in the program. */
  lemma DenyLayout()
    ensures |DENY.ops| == 34 && DENY.base == DENY_TRAMP && DENY.End() == DENY_TRAMP + 136
    ensures DENY.labels == map["forward" := DENY_TRAMP + 120]
    ensures SectionAt(DENY, 0, DENY_ENFORCE_CHECK) && SectionAt(DENY, 4, DENY_SAVE) && SectionAt(DENY, 9, DENY_LOOKUP)
    ensures SectionAt(DENY, 13, Call(CARCFG_INDEX_FN)) && SectionAt(DENY, 17, DENY_PERMIT)
    ensures SectionAt(DENY, 20, DENY_RESTORE)
    ensures SectionAt(DENY, 27, DENY_CANCEL) && SectionAt(DENY, 30, TailCall(UI_SET))
  {
    DenyTailLayout();
    hide W;
  }

  lemma DenyTailLayout()
    ensures SectionAt(DENY, 17, DENY_PERMIT) && SectionAt(DENY, 20, DENY_RESTORE)
    ensures SectionAt(DENY, 27, DENY_CANCEL) && SectionAt(DENY, 30, TailCall(UI_SET))
  {}

  /** The machine enters the trampoline with room for its stack frame, apart
      from the trampoline itself. */
  ghost predicate Entered(g: Game, s: Cpu) {
    && s.pc == DENY_TRAMP && s.npc == DENY_TRAMP + 4
    && Resolvable(DENY_OPS, DENY_LABELS) && DENY.LoadedIn(s.mem)
    && (g.entry < DENY_TRAMP || DENY.End() <= g.entry)
    && s.Get(SP) % 4 == 0 && s.Get(SP) >= 32 && (s.Get(SP) <= DENY_TRAMP || DENY.End() <= s.Get(SP) - 32)
    && s.Get(S3) % 4 == 0
  }

  /** The first four instructions: to the forward label exactly if the enforce
      byte is zero. */
  lemma RunCheck(g: Game, s0: Cpu) returns (s: Cpu)
    requires Entered(g, s0)
    ensures s.mem == s0.mem && forall r: Reg :: r != T0 && r != T1 ==> s.Get(r) == s0.Get(r)
    ensures Rd8(s0.mem, ENFORCE_FLAG) == 0 ==> Reached(DENY, g, s0, 4, s, 30)
    ensures Rd8(s0.mem, ENFORCE_FLAG) != 0 ==> Reached(DENY, g, s0, 4, s, 4)
  {
    hide Program.Sound, CodeAt, Linked, DENY, DENY_OPS, SectionAt, Rd8, W, Run;
    DenySound();
    DenyLayout();
    Listing(DENY, 0, DENY_ENFORCE_CHECK);
    assert Run(g, s0, 0) == Some(s0) by { RunZero(g, s0); }
    assert Reached(DENY, g, s0, 0, s0, 0);
    hide Reached;
    var s1 := DoLui(DENY, g, s0, 0, s0, 0, T0, 0x72);
    var s2 := DoLb(DENY, g, s0, 1, s1, 1, T1, T0, 0x05FC);
    var s3 := DoBranch(DENY, g, s0, 2, s2, 2, true, T1, ZERO, "forward");
    s := DoSlot(DENY, g, s0, 3, s3, 3, if Rd8(s0.mem, ENFORCE_FLAG) == 0 then DENY_TRAMP + 120 else DENY_TRAMP + 16);
    Landed(DENY, g, s0, 4, s, if Rd8(s0.mem, ENFORCE_FLAG) == 0 then 30 else 4);
  }

  /** The saved ra, a0, a1, a2 are in the 16 bytes from a. */
  ghost predicate Saved(m: Memory, a: nat, s: Cpu) {
    && Rd32(m, a) == s.Get(RA) && Rd32(m, a + 4) == s.Get(A0)
    && Rd32(m, a + 8) == s.Get(A1) && Rd32(m, a + 12) == s.Get(A2)
  }

  lemma RunSave(g: Game, s0: Cpu, s4: Cpu) returns (s: Cpu)
    requires Reached(DENY, g, s0, 4, s4, 4)
    requires s4.Get(SP) % 4 == 0 && s4.Get(SP) >= 32 && (s4.Get(SP) <= DENY_TRAMP || DENY.End() <= s4.Get(SP) - 32)
    ensures Reached(DENY, g, s0, 9, s, 9)
    ensures s.Get(SP) == s4.Get(SP) - 32 && forall r: Reg :: r != SP ==> s.Get(r) == s4.Get(r)
    ensures SameOutside(s4.mem, s.mem, s.Get(SP), s.Get(SP) + 32) && Saved(s.mem, s.Get(SP), s4)
  {
    hide Reached, DENY, DENY_OPS, SectionAt, Rd32, Rd8, Wr32, W;
    DenyLayout();
    Listing(DENY, 4, DENY_SAVE);
    var s5 := DoAddiu(DENY, g, s0, 4, s4, 4, SP, SP, -32);
    var a := s5.Get(SP);
    var s6 := DoSw(DENY, g, s0, 5, s5, 5, RA, SP, 0);
    var s7 := DoSw(DENY, g, s0, 6, s6, 6, A0, SP, 4);
    var s8 := DoSw(DENY, g, s0, 7, s7, 7, A1, SP, 8);
    s := DoSw(DENY, g, s0, 8, s8, 8, A2, SP, 12);
    Wr32Effect(s5.mem, a, s4.Get(RA));
    Wr32Effect(s6.mem, a + 4, s4.Get(A0));
    Wr32Effect(s7.mem, a + 8, s4.Get(A1));
    Wr32Effect(s8.mem, a + 12, s4.Get(A2));
  }

  /** The record pointer selected in the shop context that s3 points to. */
  function RecPtr(s: Cpu): Word {
    DetectHook.RecPtr(s, s.Get(S3))
  }

  lemma RunLookup(g: Game, s0: Cpu, s9: Cpu) returns (s: Cpu)
    requires Reached(DENY, g, s0, 9, s9, 9) && s9.Get(S3) % 4 == 0
    ensures Run(g, s0, 17) == Some(s) && s.pc == CARCFG_INDEX_FN && s.npc == CARCFG_INDEX_FN + 4
    ensures s.mem == s9.mem && s.Get(A0) == RecPtr(s9) && s.Get(RA) == DENY_TRAMP + 68
    ensures forall r: Reg :: r !in {T0, T1, A0, T9, RA} ==> s.Get(r) == s9.Get(r)
    ensures DENY.LoadedIn(s.mem)
  {
    hide Reached, DENY, DENY_OPS, SectionAt, Rd32, W, Run, CodeAt, Linked;
    DenyLayout();
    Listing(DENY, 9, DENY_LOOKUP);
    WAligned(s9.Get(S3), CTX_SELECTED);
    var s10 := DoLw(DENY, g, s0, 9, s9, 9, T0, S3, CTX_SELECTED);
    var s11 := DoSll(DENY, g, s0, 10, s10, 10, T0, T0, 2);
    var s12 := DoAddu(DENY, g, s0, 11, s11, 11, T1, S3, T0);
    var sel: int := Rd32(s9.mem, W(s9.Get(S3) + CTX_SELECTED));
    assert s11.Get(T0) == W(4 * sel);
    assert s12.Get(T1) == DetectHook.SelectedPointer(s9, s9.Get(S3)) by { WAdd(s9.Get(S3), 4 * sel); }
    WAligned(s9.Get(S3), 4 * sel);
    WAligned(s12.Get(T1), CTX_RECPTRS);
    var s13 := DoLw(DENY, g, s0, 12, s12, 12, A0, T1, CTX_RECPTRS);
    s := RunCall(DENY, g, s0, 13, s13, 13, CARCFG_INDEX_FN);
  }

  /** The permit byte the code reads for an index, wherever that index points. */
  function PermitByte(m: Memory, index: Word): Byte {
    Rd8(m, W(PERMIT_TABLE + index))
  }

  lemma RunPermit(g: Game, s0: Cpu, s18: Cpu) returns (s: Cpu)
    requires Reached(DENY, g, s0, 18, s18, 17)
    ensures Reached(DENY, g, s0, 21, s, 20)
    ensures s.mem == s18.mem && s.Get(T1) == SignExtendByte(PermitByte(s18.mem, s18.Get(V0)))
    ensures forall r: Reg :: r != T0 && r != T1 ==> s.Get(r) == s18.Get(r)
  {
    hide Reached, DENY, DENY_OPS, SectionAt, Rd8, W;
    DenyLayout();
    Listing(DENY, 17, DENY_PERMIT);
    var s19 := DoLui(DENY, g, s0, 18, s18, 17, T0, 0x72);
    var s20 := DoAddu(DENY, g, s0, 19, s19, 18, T0, T0, V0);
    s := DoLb(DENY, g, s0, 20, s20, 19, T1, T0, 0x0600);
    WAdd(0x600, 0x72_0000 + s18.Get(V0));
  }

  /** The caller's registers come back from the frame, and t1 decides between
      the forward label and the cancel code. */
  lemma RunRestore(g: Game, s0: Cpu, s21: Cpu, caller: Cpu) returns (s: Cpu)
    requires Reached(DENY, g, s0, 21, s21, 20)
    requires s21.Get(SP) % 4 == 0 && s21.Get(SP) + 32 < 0x1_0000_0000 && Saved(s21.mem, s21.Get(SP), caller)
    ensures s.mem == s21.mem && s.Get(SP) == s21.Get(SP) + 32
    ensures s.Get(RA) == caller.Get(RA) && s.Get(A0) == caller.Get(A0)
    ensures s.Get(A1) == caller.Get(A1) && s.Get(A2) == caller.Get(A2)
    ensures forall r: Reg :: r !in {A0, A1, A2, SP, RA} ==> s.Get(r) == s21.Get(r)
    ensures s21.Get(T1) != 0 ==> Reached(DENY, g, s0, 28, s, 30)
    ensures s21.Get(T1) == 0 ==> Reached(DENY, g, s0, 28, s, 27)
  {
    hide Reached, DENY, DENY_OPS, SectionAt, Rd32, W, Run, CodeAt, Linked, Program.Sound;
    DenyLayout();
    Listing(DENY, 20, DENY_RESTORE);
    var s22 := DoLw(DENY, g, s0, 21, s21, 20, A0, SP, 4);
    var s23 := DoLw(DENY, g, s0, 22, s22, 21, A1, SP, 8);
    var s24 := DoLw(DENY, g, s0, 23, s23, 22, A2, SP, 12);
    var s25 := DoLw(DENY, g, s0, 24, s24, 23, RA, SP, 0);
    var s26 := DoAddiu(DENY, g, s0, 25, s25, 24, SP, SP, 32);
    var s27 := DoBranch(DENY, g, s0, 26, s26, 25, false, T1, ZERO, "forward");
    s := DoSlot(DENY, g, s0, 27, s27, 26, if s21.Get(T1) != 0 then DENY_TRAMP + 120 else DENY_TRAMP + 108);
    Landed(DENY, g, s0, 28, s, if s21.Get(T1) != 0 then 30 else 27);
  }

  lemma RunCancel(g: Game, s0: Cpu, s28: Cpu) returns (s: Cpu)
    requires Reached(DENY, g, s0, 28, s28, 27)
    ensures Reached(DENY, g, s0, 31, s, 30)
    ensures s.Get(A2) == 0 && s.mem == Wr8(s28.mem, PENDING_FLAG, 0)
    ensures forall r: Reg :: r != A2 && r != T2 ==> s.Get(r) == s28.Get(r)
  {
    hide Reached, DENY, DENY_OPS, SectionAt, Wr8, W;
    DenyLayout();
    Listing(DENY, 27, DENY_CANCEL);
    var s29 := DoAddiu(DENY, g, s0, 28, s28, 27, A2, ZERO, 0);
    var s30 := DoLui(DENY, g, s0, 29, s29, 28, T2, 0x61);
    s := DoSb(DENY, g, s0, 30, s30, 29, ZERO, T2, 0x79BD);
  }

  lemma RunForward(g: Game, s0: Cpu, n: nat, s: Cpu) returns (f: Cpu)
    requires Reached(DENY, g, s0, n, s, 30)
    ensures Run(g, s0, n + 4) == Some(f) && AtUISet(f)
    ensures f.mem == s.mem && forall r: Reg :: r != T9 ==> f.Get(r) == s.Get(r)
  {
    hide Reached, DENY, DENY_OPS, SectionAt, Run;
    DenyLayout();
    f := RunTailCall(DENY, g, s0, n, s, 30, UI_SET);
  }

  predicate AtUISet(s: Cpu) {
    s.pc == UI_SET && s.npc == UI_SET + 4
  }

  /** What reaches UISet unchanged on every path: the first two arguments, the
      return address, the stack pointer and the saved registers. */
  ghost predicate CallKept(s: Cpu, f: Cpu) {
    && f.Get(A0) == s.Get(A0) && f.Get(A1) == s.Get(A1) && f.Get(RA) == s.Get(RA)
    && forall r: Reg :: S0 <= r <= S7 || r in {GP, SP, FP} ==> f.Get(r) == s.Get(r)
  }

  /** Enforcement off: a pure forward. */
  lemma DenyGateOff(g: Game, s0: Cpu) returns (f: Cpu)
    requires Entered(g, s0) && Rd8(s0.mem, ENFORCE_FLAG) == 0
    ensures Run(g, s0, 8) == Some(f) && AtUISet(f)
    ensures CallKept(s0, f) && f.Get(A2) == s0.Get(A2) && f.mem == s0.mem
  {
    hide Run, Reached, DENY, DENY_OPS, SectionAt;
    var s := RunCheck(g, s0);
    f := RunForward(g, s0, 4, s);
  }

  /** What the gate makes of the lookup's result r: forwarded unchanged if the
      permit byte of the index is non-zero, otherwise cancelled with the pending
      flag cleared; the rest of memory is as the lookup left it. */
  ghost predicate Gated(s: Cpu, r: Cpu, f: Cpu) {
    && AtUISet(f) && CallKept(s, f)
    && if PermitByte(r.mem, r.Get(V0)) != 0
       then f.Get(A2) == s.Get(A2) && f.mem == r.mem
       else f.Get(A2) == 0 && f.mem == Wr8(r.mem, PENDING_FLAG, 0)
  }

  /** Enforcement on: the index lookup is called with the selected record
      pointer, below a frame holding the caller's registers, and only that frame
      was written.  If that one call keeps to the calling convention, the gate
      decides by the index it returned, whatever else the lookup did. */
  lemma DenyGateOn(g: Game, s0: Cpu) returns (c: Cpu, f: Cpu, n: nat)
    requires Entered(g, s0) && Rd8(s0.mem, ENFORCE_FLAG) != 0 && g.entry == CARCFG_INDEX_FN
    ensures Run(g, s0, 17) == Some(c) && c.pc == CARCFG_INDEX_FN
    ensures c.Get(A0) == RecPtr(c) && c.Get(S3) == s0.Get(S3)
    ensures SameOutside(s0.mem, c.mem, s0.Get(SP) - 32, s0.Get(SP))
    ensures AbiReturn(c, g.body(c), 32, DENY) ==> Run(g, s0, n) == Some(f) && Gated(s0, g.body(c), f)
    ensures n == if PermitByte(g.body(c).mem, g.body(c).Get(V0)) != 0 then 32 else 35
  {
    hide Run, Reached, DENY, DENY_OPS, SectionAt, Rd8, Rd32, Linked, CodeAt, W, Program.Sound;
    DenyLayout();
    DenySound();
    var s4 := RunCheck(g, s0);
    var s9 := RunSave(g, s0, s4);
    c := RunLookup(g, s0, s9);
    assert RecPtr(c) == RecPtr(s9);
    var r := g.body(c);
    f, n := c, if PermitByte(r.mem, r.Get(V0)) != 0 then 32 else 35;
    if AbiReturn(c, r, 32, DENY) {
      Returned(DENY, g, s0, 17, c, 17, 32);
      f := RunDecision(g, s0, s4, c);
    }
  }

  /** From the return of the lookup to UISet. */
  lemma RunDecision(g: Game, s0: Cpu, s4: Cpu, c: Cpu) returns (f: Cpu)
    requires Reached(DENY, g, s0, 18, g.body(c), 17) && AbiReturn(c, g.body(c), 32, DENY)
    requires c.Get(SP) == s4.Get(SP) - 32 >= 0 && c.Get(SP) % 4 == 0 && Saved(c.mem, c.Get(SP), s4)
    requires forall q: Reg :: S0 <= q <= S7 || q in {GP, FP} ==> c.Get(q) == s4.Get(q)
    ensures var r := g.body(c);
            Run(g, s0, if PermitByte(r.mem, r.Get(V0)) != 0 then 32 else 35) == Some(f) && Gated(s4, r, f)
  {
    hide Run, Reached, DENY, DENY_OPS, SectionAt, Rd8, Rd32, Linked, CodeAt, W, Program.Sound;
    var r := g.body(c);
    assert Saved(r.mem, r.Get(SP), s4) by { SavedKept(c.mem, r.mem, c.Get(SP), s4); }
    var s21 := RunPermit(g, s0, r);
    var s28 := RunRestore(g, s0, s21, s4);
    if PermitByte(r.mem, r.Get(V0)) != 0 {
      f := RunForward(g, s0, 28, s28);
    } else {
      var s31 := RunCancel(g, s0, s28);
      f := RunForward(g, s0, 31, s31);
    }
  }

  lemma SavedKept(m: Memory, m': Memory, a: nat, s: Cpu)
    requires Saved(m, a, s) && SameWithin(m, m', a, a + 32)
    ensures Saved(m', a, s)
  {
    Rd32Same(m, m', a);
    Rd32Same(m, m', a + 4);
    Rd32Same(m, m', a + 8);
    Rd32Same(m, m', a + 12);
  }
}
