/** The assembled detect trampoline, executed: from every machine state it
    appends one ring record and reaches SpendMoney with the call unchanged. */
module DetectHook {
  import opened MipsDisasm
  import opened MipsAssembler
  import opened EeMemory
  import opened EeMachine
  import opened HookPurchase
  import opened RingLayout
  import opened Options

  const DETECT: Program := Program(DETECT_OPS, DETECT_TRAMP, map[])

  /** The program decodes to itself. */
  lemma DetectSound()
    ensures DETECT.Sound()
  {}

  /** Where the sections sit in the program. */
  lemma DetectLayout()
    ensures |DETECT.ops| == 25 && DETECT.base == DETECT_TRAMP
    ensures SectionAt(DETECT, 0, DETECT_LOADS) && SectionAt(DETECT, 7, DETECT_ADVANCE)
    ensures SectionAt(DETECT, 15, DETECT_RECORD) && SectionAt(DETECT, 21, TailCall(SPEND_MONEY))
  {}

  function SelectedPointer(s: Cpu, ctx: Word): Word {
    W(ctx + 4 * Rd32(s.mem, W(ctx + CTX_SELECTED)))
  }

  /** The record pointer of the vehicle selected in the shop context. */
  function RecPtr(s: Cpu, ctx: Word): Word {
    Rd32(s.mem, W(SelectedPointer(s, ctx) + CTX_RECPTRS))
  }

  lemma RunLoads(g: Game, s0: Cpu) returns (s: Cpu)
    requires Reached(DETECT, g, s0, 0, s0, 0) && s0.Get(A0) % 4 == 0
    ensures Reached(DETECT, g, s0, 7, s, 7) && s.mem == s0.mem
    ensures s.Get(T1) == Rd32(s0.mem, WALLET) && s.Get(T2) == W(Rd32(s0.mem, WALLET) - s0.Get(A1))
    ensures s.Get(T4) == RecPtr(s0, s0.Get(A0))
    ensures forall r: Reg :: r !in {T0, T1, T2, T3, T4} ==> s.Get(r) == s0.Get(r)
  {
    hide Reached, Rd32, W, DETECT_OPS, DETECT, Program.Sound, SectionAt, RecPtr;
    DetectLayout();
    Listing(DETECT, 0, DETECT_LOADS);
    var s1 := DoLui(DETECT, g, s0, 0, s0, 0, T0, 0x80);
    var s2 := DoLw(DETECT, g, s0, 1, s1, 1, T1, T0, 0x0870);
    var s3 := DoSubu(DETECT, g, s0, 2, s2, 2, T2, T1, A1);
    s := RunSelect(g, s0, s3);
  }

  /** The record pointer of the selected vehicle into t4. */
  lemma RunSelect(g: Game, s0: Cpu, s3: Cpu) returns (s: Cpu)
    requires Reached(DETECT, g, s0, 3, s3, 3) && s3.mem == s0.mem && s3.Get(A0) == s0.Get(A0) && s0.Get(A0) % 4 == 0
    ensures Reached(DETECT, g, s0, 7, s, 7) && s.mem == s0.mem
    ensures s.Get(T4) == RecPtr(s0, s0.Get(A0))
    ensures forall r: Reg :: r !in {T3, T4} ==> s.Get(r) == s3.Get(r)
  {
    hide Reached, Rd32, W, DETECT_OPS, DETECT, Program.Sound, SectionAt;
    DetectLayout();
    Listing(DETECT, 0, DETECT_LOADS);
    var sel: int := Rd32(s0.mem, W(s0.Get(A0) + CTX_SELECTED));
    WAligned(s0.Get(A0), CTX_SELECTED);
    var s4 := DoLw(DETECT, g, s0, 3, s3, 3, T3, A0, CTX_SELECTED);
    var s5 := DoSll(DETECT, g, s0, 4, s4, 4, T3, T3, 2);
    var s6 := DoAddu(DETECT, g, s0, 5, s5, 5, T4, A0, T3);
    assert s5.Get(T3) == W(4 * sel);
    assert s6.Get(T4) == SelectedPointer(s0, s0.Get(A0)) by { WAdd(s0.Get(A0), 4 * sel); }
    WAligned(s0.Get(A0), 4 * sel);
    WAligned(s6.Get(T4), CTX_RECPTRS);
    s := DoLw(DETECT, g, s0, 6, s6, 6, T4, T4, CTX_RECPTRS);
  }

  lemma RunAdvance(g: Game, s0: Cpu, s7: Cpu) returns (s: Cpu)
    requires Reached(DETECT, g, s0, 7, s7, 7)
    ensures Reached(DETECT, g, s0, 15, s, 15)
    ensures s.mem == Wr32(Wr32(s7.mem, RING_BASE, W(Rd32(s7.mem, RING_BASE) + 1)), RING_BASE + 4,
                          W(Rd32(s7.mem, RING_BASE + 4) + 1) % 16)
    ensures s.Get(T0) == 0x72_0000 && s.Get(T5) == W(Rd32(s7.mem, RING_BASE) + 1)
    ensures s.Get(T6) == W(Rd32(s7.mem, RING_BASE + 4) + 1) % 16
    ensures forall r: Reg :: r !in {T0, T5, T6} ==> s.Get(r) == s7.Get(r)
  {
    hide Reached, Rd32, Wr32, W, DETECT_OPS, DETECT, Program.Sound, SectionAt;
    DetectLayout();
    Listing(DETECT, 7, DETECT_ADVANCE);
    var s8 := DoLui(DETECT, g, s0, 7, s7, 7, T0, 0x72);
    var s9 := DoLw(DETECT, g, s0, 8, s8, 8, T5, T0, 0x0B00);
    var s10 := DoAddiu(DETECT, g, s0, 9, s9, 9, T5, T5, 1);
    var s11 := DoSw(DETECT, g, s0, 10, s10, 10, T5, T0, 0x0B00);
    Wr32Effect(s7.mem, RING_BASE, s10.Get(T5));
    var s12 := DoLw(DETECT, g, s0, 11, s11, 11, T6, T0, 0x0B04);
    var s13 := DoAddiu(DETECT, g, s0, 12, s12, 12, T6, T6, 1);
    var s14 := DoAndi(DETECT, g, s0, 13, s13, 13, T6, T6, 4);
    s := DoSw(DETECT, g, s0, 14, s14, 14, T6, T0, 0x0B04);
  }

  lemma RunRecord(g: Game, s0: Cpu, s15: Cpu) returns (s: Cpu)
    requires Reached(DETECT, g, s0, 15, s15, 15) && s15.Get(T0) == 0x72_0000 && s15.Get(T6) < 16
    ensures Reached(DETECT, g, s0, 21, s, 21)
    ensures var slot := RING_RECS + 16 * s15.Get(T6);
            s.mem == Wr32(Wr32(Wr32(Wr32(s15.mem, slot, s15.Get(T4)), slot + 4, s15.Get(T2)),
                               slot + 8, s15.Get(T1)), slot + 12, s15.Get(T5))
    ensures forall r: Reg :: r != T7 ==> s.Get(r) == s15.Get(r)
  {
    hide Reached, Rd32, Wr32, W, DETECT_OPS, DETECT, Program.Sound, SectionAt;
    DetectLayout();
    Listing(DETECT, 15, DETECT_RECORD);
    var s16 := DoSll(DETECT, g, s0, 15, s15, 15, T7, T6, 4);
    assert s16.Get(T7) == 16 * s15.Get(T6);
    var s17 := DoAddu(DETECT, g, s0, 16, s16, 16, T7, T7, T0);
    assert s17.Get(T7) == 0x72_0000 + 16 * s15.Get(T6);
    var s18 := DoSw(DETECT, g, s0, 17, s17, 17, T4, T7, 0x0B10);
    var s19 := DoSw(DETECT, g, s0, 18, s18, 18, T2, T7, 0x0B14);
    var s20 := DoSw(DETECT, g, s0, 19, s19, 19, T1, T7, 0x0B18);
    s := DoSw(DETECT, g, s0, 20, s20, 20, T5, T7, 0x0B1C);
  }

  /** The detect trampoline, from every machine state that enters it with an
      aligned shop context: after 25 instructions it stands at the entry of
      SpendMoney, only t0-t7 and t9 have changed among the registers, and memory
      has exactly one ring record more, even if the head word held garbage. */
  lemma DetectHookAppends(g: Game, s0: Cpu) returns (f: Cpu)
    requires s0.pc == DETECT_TRAMP && s0.npc == DETECT_TRAMP + 4
    requires Resolvable(DETECT_OPS, map[]) && DETECT.LoadedIn(s0.mem)
    requires g.entry < DETECT_TRAMP || DETECT.End() <= g.entry
    requires s0.Get(A0) % 4 == 0
    ensures Run(g, s0, 25) == Some(f)
    ensures f.pc == SPEND_MONEY && f.npc == SPEND_MONEY + 4
    ensures forall r: Reg :: r !in {T0, T1, T2, T3, T4, T5, T6, T7, T9} ==> f.Get(r) == s0.Get(r)
    ensures var wallet := Rd32(s0.mem, WALLET);
            Appended(s0.mem, f.mem, Record(RecPtr(s0, s0.Get(A0)), W(wallet - s0.Get(A1)), wallet,
                                           W(Count(s0.mem) + 1)))
  {
    hide Program.Sound, CodeAt, DETECT, Rd32, Wr32, RecPtr, Appended, Run, SectionAt;
    DetectSound();
    DetectLayout();
    assert Reached(DETECT, g, s0, 0, s0, 0) by { RunZero(g, s0); }
    var s7 := RunLoads(g, s0);
    var s15 := RunAdvance(g, s0, s7);
    var s21 := RunRecord(g, s0, s15);
    f := RunTailCall(DETECT, g, s0, 21, s21, 21, SPEND_MONEY);
    var m := s0.mem;
    NextSlotWord(Head(m));
    StoresAppend(m, s15.Get(T4), s15.Get(T2), s15.Get(T1));
  }

  /** Wrapping the incremented head at 2^32 first does not change the slot. */
  lemma NextSlotWord(head: Word)
    ensures W(head + 1) % 16 == (head + 1) % 16
  {}
}
