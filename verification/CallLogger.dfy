/** The SetCarCfg call loggers (tools/instrument_setcarcfg.py and
    tools/instrument_setcarcfg_first_site.py): the same code at two addresses
    with two targets. */
module CallLogger {
  import opened MipsDisasm
  import opened MipsAssembler
  import opened AssemblerRoundTrip
  import opened EeMemory
  import opened EeMachine
  import opened Options

  const SECOND_SITE_TRAMP: nat := 0x0072_0800
  const SET_CAR_CFG: nat := 0x005D_2380
  const FIRST_SITE_TRAMP: nat := 0x0072_0880
  const PAYLOAD_TRAMP: nat := 0x0072_0040
  const LOG_BASE: nat := 0x0072_0700
  const LOG_RECORDS: nat := 0x0072_0710
  const LOG_REC_SIZE: nat := 0x18
  const LOG_COUNT: nat := 8
  const LOG_SIZE: nat := 0xD0
  const MAILBOX: nat := 0x0072_0000
  const MAILBOX_END: nat := 0x0072_1000

  const LOG_SAVE: seq<Op> := [
    Imm(ADDIU, SP, SP, -16),
    Imm(SW, RA, SP, 0)
  ]

  const LOG_ADVANCE: seq<Op> := [
    Imm(LUI, AT, ZERO, 0x0072),
    Imm(LW, T8, AT, 0x0700),
    Imm(ADDIU, T8, T8, 1),
    Imm(SW, T8, AT, 0x0700),
    Imm(LW, T8, AT, 0x0704),
    Imm(ADDIU, T8, T8, 1),
    Imm(ANDI, T8, T8, 7),
    Imm(SW, T8, AT, 0x0704)
  ]

  /** The slot address less 0x710: base + (slot << 4) + (slot << 3) -> t9. */
  const LOG_SLOT: seq<Op> := [
    Sll(T9, T8, 4),
    Sll(T8, T8, 3),
    R3(ADDU, T9, T9, T8),
    R3(ADDU, T9, T9, AT)
  ]

  const LOG_RECORD: seq<Op> := [
    Imm(SW, A0, T9, 0x0710),
    Imm(SW, A1, T9, 0x0714),
    Imm(SW, A2, T9, 0x0718),
    Imm(SW, A3, T9, 0x071C),
    Imm(SW, RA, T9, 0x0720)
  ]

  const LOG_RETURN: seq<Op> := [
    Imm(LW, RA, SP, 0),
    Imm(ADDIU, SP, SP, 16),
    Jr(RA),
    Nop
  ]

  function LoggerOps(target: nat): seq<Op> {
    LOG_SAVE + LOG_ADVANCE + LOG_SLOT + LOG_RECORD + Call(target) + LOG_RETURN
  }

  function Logger(base: nat, target: nat): Program {
    Program(LoggerOps(target), base, map[])
  }

  // ---- The builder -------------------------------------------------------

  method EmitLogSave(a: Assembler)
    requires a.Valid()
    modifies a
    ensures a.Valid() && a.labels == old(a.labels) && a.ops == old(a.ops) + LOG_SAVE
  {
    hide Consistent;
    a.EmitOk(Imm(ADDIU, SP, SP, -16));
    a.EmitOk(Imm(SW, RA, SP, 0));
  }

  method EmitLogAdvance(a: Assembler)
    requires a.Valid()
    modifies a
    ensures a.Valid() && a.labels == old(a.labels) && a.ops == old(a.ops) + LOG_ADVANCE
  {
    hide Consistent;
    a.EmitOk(Imm(LUI, AT, ZERO, 0x0072));
    a.EmitOk(Imm(LW, T8, AT, 0x0700));
    a.EmitOk(Imm(ADDIU, T8, T8, 1));
    a.EmitOk(Imm(SW, T8, AT, 0x0700));
    a.EmitOk(Imm(LW, T8, AT, 0x0704));
    a.EmitOk(Imm(ADDIU, T8, T8, 1));
    a.EmitOk(Imm(ANDI, T8, T8, 7));
    a.EmitOk(Imm(SW, T8, AT, 0x0704));
  }

  method EmitLogSlot(a: Assembler)
    requires a.Valid()
    modifies a
    ensures a.Valid() && a.labels == old(a.labels) && a.ops == old(a.ops) + LOG_SLOT
  {
    hide Consistent;
    a.EmitOk(Sll(T9, T8, 4));
    a.EmitOk(Sll(T8, T8, 3));
    a.EmitOk(R3(ADDU, T9, T9, T8));
    a.EmitOk(R3(ADDU, T9, T9, AT));
  }

  method EmitLogRecord(a: Assembler)
    requires a.Valid()
    modifies a
    ensures a.Valid() && a.labels == old(a.labels) && a.ops == old(a.ops) + LOG_RECORD
  {
    hide Consistent;
    a.EmitOk(Imm(SW, A0, T9, 0x0710));
    a.EmitOk(Imm(SW, A1, T9, 0x0714));
    a.EmitOk(Imm(SW, A2, T9, 0x0718));
    a.EmitOk(Imm(SW, A3, T9, 0x071C));
    a.EmitOk(Imm(SW, RA, T9, 0x0720));
  }

  method EmitLogReturn(a: Assembler)
    requires a.Valid()
    modifies a
    ensures a.Valid() && a.labels == old(a.labels) && a.ops == old(a.ops) + LOG_RETURN
  {
    hide Consistent;
    a.EmitOk(Imm(LW, RA, SP, 0));
    a.EmitOk(Imm(ADDIU, SP, SP, 16));
    a.EmitOk(Jr(RA));
    a.EmitOk(Nop);
  }

  lemma LoggerLinks(base: nat, target: nat)
    ensures LoggerOps(target) == [] + LOG_SAVE + LOG_ADVANCE + LOG_SLOT + LOG_RECORD + Call(target) + LOG_RETURN
    ensures Resolvable(LoggerOps(target), map[]) && WordsFit(Linked(LoggerOps(target), base, map[]))
  {
    assert ShiftsFit(LoggerOps(target));
    LinkedFits(LoggerOps(target), base, map[]);
  }

  /** `build_trampoline` of both tools, with their base and target. */
  method BuildTrampoline(base: nat, target: nat) returns (code: seq<Byte>)
    ensures Resolvable(LoggerOps(target), map[])
    ensures code == Bytes(Linked(LoggerOps(target), base, map[]))
  {
    hide *;
    var a := new Assembler(base);
    EmitLogSave(a);
    EmitLogAdvance(a);
    EmitLogSlot(a);
    EmitLogRecord(a);
    EmitCall(a, target);
    EmitLogReturn(a);
    LoggerLinks(base, target);
    var r := a.Link();
    code := r.value;
  }

  // ---- Execution ---------------------------------------------------------

  function LogNextSlot(m: Memory): nat {
    (Rd32(m, LOG_BASE + 4) + 1) % LOG_COUNT
  }

  function LogSlotAddr(slot: nat): nat {
    LOG_RECORDS + LOG_REC_SIZE * slot
  }

  /** Count and head moved on, and the next slot holds a0-a3 and the return
      address of the call; a garbage head still selects one of the eight slots. */
  ghost predicate Logged(m: Memory, m': Memory, s: Cpu) {
    var slot := LogNextSlot(m);
    var a := LogSlotAddr(slot);
    && Rd32(m', LOG_BASE) == W(Rd32(m, LOG_BASE) + 1) && Rd32(m', LOG_BASE + 4) == slot
    && Rd32(m', a) == s.Get(A0) && Rd32(m', a + 4) == s.Get(A1) && Rd32(m', a + 8) == s.Get(A2)
    && Rd32(m', a + 12) == s.Get(A3) && Rd32(m', a + 16) == s.Get(RA)
  }

  /** Memory changes only in the log and in the 16 bytes below the entry sp. */
  ghost predicate LogFrame(m: Memory, m': Memory, sp: nat) {
    forall a: nat :: !(LOG_BASE <= a < LOG_BASE + LOG_SIZE) && !(sp - 16 <= a < sp) ==> Rd8(m', a) == Rd8(m, a)
  }

  /** One of the two installed loggers. */
  predicate Installed(base: nat, target: Word) {
    || (base == SECOND_SITE_TRAMP && target == SET_CAR_CFG)
    || (base == FIRST_SITE_TRAMP && target == PAYLOAD_TRAMP)
  }

  lemma LoggerSound(base: nat, target: Word)
    requires Installed(base, target)
    ensures Logger(base, target).Sound()
  {}

  lemma LoggerLayout(base: nat, target: nat)
    ensures var p := Logger(base, target);
            && |p.ops| == 27 && p.base == base && p.End() == base + 108
            && SectionAt(p, 0, LOG_SAVE) && SectionAt(p, 2, LOG_ADVANCE) && SectionAt(p, 10, LOG_SLOT)
            && SectionAt(p, 14, LOG_RECORD) && SectionAt(p, 19, Call(target)) && SectionAt(p, 23, LOG_RETURN)
  {}

  ghost predicate FreeStack(sp: Word, frame: nat) {
    sp % 4 == 0 && sp >= frame && (sp <= MAILBOX || MAILBOX_END + frame <= sp)
  }

  lemma RunLogAdvance(base: nat, target: Word, g: Game, s0: Cpu) returns (s: Cpu)
    requires Installed(base, target) && FreeStack(s0.Get(SP), 16)
    requires Reached(Logger(base, target), g, s0, 0, s0, 0)
    ensures Reached(Logger(base, target), g, s0, 10, s, 10)
    ensures var sp := s0.Get(SP) - 16;
            && s.Get(SP) == sp && s.Get(T8) == LogNextSlot(s0.mem) && s.Get(AT) == MAILBOX
            && Rd32(s.mem, sp) == s0.Get(RA) && LogFrame(s0.mem, s.mem, s0.Get(SP))
            && Rd32(s.mem, LOG_BASE) == W(Rd32(s0.mem, LOG_BASE) + 1)
            && Rd32(s.mem, LOG_BASE + 4) == LogNextSlot(s0.mem)
    ensures forall r: Reg :: r !in {SP, T8, AT} ==> s.Get(r) == s0.Get(r)
  {
    hide Reached, SectionAt, Rd32, Rd8, Wr32, W, Logger, LoggerOps;
    LoggerLayout(base, target);
    var p := Logger(base, target);
    Listing(p, 0, LOG_SAVE);
    var s1 := DoAddiu(p, g, s0, 0, s0, 0, SP, SP, -16);
    var sp := s1.Get(SP);
    var s2 := DoSw(p, g, s0, 1, s1, 1, RA, SP, 0);
    Wr32Effect(s0.mem, sp, s0.Get(RA));
    s := RunLogHead(base, target, g, s0, s2);
    Rd32Same(s2.mem, s.mem, sp);
  }

  lemma RunLogHead(base: nat, target: Word, g: Game, s0: Cpu, s2: Cpu) returns (s: Cpu)
    requires Installed(base, target) && Reached(Logger(base, target), g, s0, 2, s2, 2)
    ensures Reached(Logger(base, target), g, s0, 10, s, 10)
    ensures s.Get(T8) == LogNextSlot(s2.mem) && s.Get(AT) == MAILBOX
    ensures Rd32(s.mem, LOG_BASE) == W(Rd32(s2.mem, LOG_BASE) + 1) && Rd32(s.mem, LOG_BASE + 4) == LogNextSlot(s2.mem)
    ensures SameOutside(s2.mem, s.mem, LOG_BASE, LOG_BASE + 8)
    ensures forall r: Reg :: r !in {T8, AT} ==> s.Get(r) == s2.Get(r)
  {
    hide Reached, SectionAt, Rd32, Rd8, Wr32, W, Logger, LoggerOps;
    LoggerLayout(base, target);
    var p := Logger(base, target);
    Listing(p, 2, LOG_ADVANCE);
    var s3 := DoLui(p, g, s0, 2, s2, 2, AT, 0x72);
    var s4 := DoLw(p, g, s0, 3, s3, 3, T8, AT, 0x0700);
    var s5 := DoAddiu(p, g, s0, 4, s4, 4, T8, T8, 1);
    var s6 := DoSw(p, g, s0, 5, s5, 5, T8, AT, 0x0700);
    Wr32Effect(s5.mem, LOG_BASE, s5.Get(T8));
    var s7 := DoLw(p, g, s0, 6, s6, 6, T8, AT, 0x0704);
    var s8 := DoAddiu(p, g, s0, 7, s7, 7, T8, T8, 1);
    var s9 := DoAndi(p, g, s0, 8, s8, 8, T8, T8, 3);
    s := DoSw(p, g, s0, 9, s9, 9, T8, AT, 0x0704);
    LogSlotWord(Rd32(s2.mem, LOG_BASE + 4));
    Wr32Effect(s9.mem, LOG_BASE + 4, s9.Get(T8));
  }

  lemma LogSlotWord(head: Word)
    ensures W(head + 1) % 8 == (head + 1) % 8
  {}

  lemma RunLogSlot(base: nat, target: Word, g: Game, s0: Cpu, s10: Cpu) returns (s: Cpu)
    requires Installed(base, target) && Reached(Logger(base, target), g, s0, 10, s10, 10)
    requires s10.Get(T8) < LOG_COUNT && s10.Get(AT) == MAILBOX
    ensures Reached(Logger(base, target), g, s0, 14, s, 14) && s.mem == s10.mem
    ensures s.Get(T9) == MAILBOX + LOG_REC_SIZE * s10.Get(T8)
    ensures forall r: Reg :: r !in {T8, T9} ==> s.Get(r) == s10.Get(r)
  {
    hide Reached, SectionAt, W, Logger, LoggerOps;
    LoggerLayout(base, target);
    var p := Logger(base, target);
    Listing(p, 10, LOG_SLOT);
    var slot := s10.Get(T8);
    var s11 := DoSll(p, g, s0, 10, s10, 10, T9, T8, 4);
    assert s11.Get(T9) == 16 * slot;
    var s12 := DoSll(p, g, s0, 11, s11, 11, T8, T8, 3);
    assert s12.Get(T8) == 8 * slot;
    var s13 := DoAddu(p, g, s0, 12, s12, 12, T9, T9, T8);
    assert s13.Get(T9) == 24 * slot;
    s := DoAddu(p, g, s0, 13, s13, 13, T9, T9, AT);
  }

  lemma RunLogRecord(base: nat, target: Word, g: Game, s0: Cpu, s14: Cpu, slot: nat) returns (s: Cpu)
    requires Installed(base, target) && Reached(Logger(base, target), g, s0, 14, s14, 14)
    requires slot < LOG_COUNT && s14.Get(T9) == MAILBOX + LOG_REC_SIZE * slot
    ensures Reached(Logger(base, target), g, s0, 19, s, 19) && s.regs == s14.regs
    ensures var a := LogSlotAddr(slot);
            && SameOutside(s14.mem, s.mem, a, a + 20)
            && Rd32(s.mem, a) == s14.Get(A0) && Rd32(s.mem, a + 4) == s14.Get(A1)
            && Rd32(s.mem, a + 8) == s14.Get(A2) && Rd32(s.mem, a + 12) == s14.Get(A3)
            && Rd32(s.mem, a + 16) == s14.Get(RA)
  {
    hide Reached, SectionAt, Rd32, Rd8, Wr32, W, Logger, LoggerOps;
    LoggerLayout(base, target);
    var p := Logger(base, target);
    Listing(p, 14, LOG_RECORD);
    var a := LogSlotAddr(slot);
    var s15 := DoSw(p, g, s0, 14, s14, 14, A0, T9, 0x0710);
    var s16 := DoSw(p, g, s0, 15, s15, 15, A1, T9, 0x0714);
    var s17 := DoSw(p, g, s0, 16, s16, 16, A2, T9, 0x0718);
    var s18 := DoSw(p, g, s0, 17, s17, 17, A3, T9, 0x071C);
    s := DoSw(p, g, s0, 18, s18, 18, RA, T9, 0x0720);
    Wr32Effect(s14.mem, a, s14.Get(A0));
    Wr32Effect(s15.mem, a + 4, s14.Get(A1));
    Wr32Effect(s16.mem, a + 8, s14.Get(A2));
    Wr32Effect(s17.mem, a + 12, s14.Get(A3));
    Wr32Effect(s18.mem, a + 16, s14.Get(RA));
  }

  lemma RunLogReturn(base: nat, target: Word, g: Game, s0: Cpu, n: nat, s: Cpu) returns (f: Cpu)
    requires Installed(base, target) && Reached(Logger(base, target), g, s0, n, s, 23)
    requires s.Get(SP) % 4 == 0 && s.Get(SP) + 16 < 0x1_0000_0000
    ensures Run(g, s0, n + 4) == Some(f) && f.mem == s.mem
    ensures f.Get(RA) == Rd32(s.mem, s.Get(SP)) == f.pc && f.npc == W(f.pc + 4)
    ensures f.Get(SP) == s.Get(SP) + 16 && forall r: Reg :: r != RA && r != SP ==> f.Get(r) == s.Get(r)
  {
    hide Reached, SectionAt, Rd32, W, Logger, LoggerOps, Run;
    LoggerLayout(base, target);
    var p := Logger(base, target);
    Listing(p, 23, LOG_RETURN);
    var s1 := DoLw(p, g, s0, n, s, 23, RA, SP, 0);
    var s2 := DoAddiu(p, g, s0, n + 1, s1, 24, SP, SP, 16);
    var s3 := DoJr(p, g, s0, n + 2, s2, 25, RA);
    f := DoSlot(p, g, s0, n + 3, s3, 26, s2.Get(RA));
  }

  /** From the entry to the call of the target. */
  lemma RunLogCall(base: nat, target: Word, g: Game, s0: Cpu) returns (c: Cpu)
    requires Installed(base, target) && FreeStack(s0.Get(SP), 16)
    requires Reached(Logger(base, target), g, s0, 0, s0, 0)
    ensures Run(g, s0, 23) == Some(c) && c.pc == target && c.npc == W(target + 4)
    ensures Logger(base, target).LoadedIn(c.mem)
    ensures c.Get(SP) == s0.Get(SP) - 16 && c.Get(RA) == base + 92
    ensures forall r: Reg :: r !in {AT, T8, T9, SP, RA} ==> c.Get(r) == s0.Get(r)
    ensures Logged(s0.mem, c.mem, s0) && LogFrame(s0.mem, c.mem, s0.Get(SP))
    ensures Rd32(c.mem, s0.Get(SP) - 16) == s0.Get(RA)
  {
    hide Run, Reached, SectionAt, Logger, LoggerOps, Rd8, Rd32, W, Program.Sound, CodeAt, Linked;
    LoggerLayout(base, target);
    var s10 := RunLogAdvance(base, target, g, s0);
    var s14 := RunLogSlot(base, target, g, s0, s10);
    var s19 := RunLogRecord(base, target, g, s0, s14, LogNextSlot(s0.mem));
    c := RunCall(Logger(base, target), g, s0, 19, s19, 19, target);
    Rd32Same(s10.mem, c.mem, s0.Get(SP) - 16);
    Rd32Same(s10.mem, c.mem, LOG_BASE);
    Rd32Same(s10.mem, c.mem, LOG_BASE + 4);
  }

  /** Both loggers are transparent: the target is entered with every register
      as the caller left it, but for at, t8, t9, sp and ra, and the call is logged.
      If that one call keeps to the calling convention, control returns to the
      caller with sp and ra restored, every other register and all memory as the
      target left them. */
  lemma LoggerTransparent(base: nat, target: Word, g: Game, s0: Cpu) returns (c: Cpu, f: Cpu)
    requires Installed(base, target) && g.entry == target
    requires s0.pc == base && s0.npc == base + 4
    requires Resolvable(LoggerOps(target), map[]) && Logger(base, target).LoadedIn(s0.mem)
    requires FreeStack(s0.Get(SP), 16)
    ensures Run(g, s0, 23) == Some(c) && c.pc == target
    ensures c.Get(SP) == s0.Get(SP) - 16
    ensures forall r: Reg :: r !in {AT, T8, T9, SP, RA} ==> c.Get(r) == s0.Get(r)
    ensures Logged(s0.mem, c.mem, s0) && LogFrame(s0.mem, c.mem, s0.Get(SP))
    ensures AbiReturn(c, g.body(c), 16, Logger(base, target)) ==> Run(g, s0, 28) == Some(f) && Resumed(s0, g.body(c), f)
  {
    hide Run, Reached, SectionAt, Logger, LoggerOps, Rd8, Rd32, W, Program.Sound, CodeAt, Linked, Logged;
    LoggerSound(base, target);
    LoggerLayout(base, target);
    var p := Logger(base, target);
    LogStart(base, target, g, s0);
    c := RunLogCall(base, target, g, s0);
    f := c;
    var r := g.body(c);
    if AbiReturn(c, r, 16, p) {
      Returned(p, g, s0, 23, c, 23, 16);
      f := RunLogReturn(base, target, g, s0, 24, r);
      Rd32Same(c.mem, r.mem, c.Get(SP));
    }
  }

  lemma LogStart(base: nat, target: Word, g: Game, s0: Cpu)
    requires Installed(base, target) && s0.pc == base && s0.npc == base + 4
    requires g.entry < base || Logger(base, target).End() <= g.entry
    requires Logger(base, target).Sound() && Logger(base, target).LoadedIn(s0.mem)
    ensures Reached(Logger(base, target), g, s0, 0, s0, 0)
  {
    LoggerLayout(base, target);
    hide Program.Sound, CodeAt, Linked, SectionAt;
    RunZero(g, s0);
  }
}
