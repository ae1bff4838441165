/** The forwarding handlers of tools/build_payload.py: count a heartbeat, note
    the event, call the original function, return to the caller. */
module PayloadHandlers {
  import opened Bits
  import opened MipsDisasm
  import opened MipsAssembler
  import opened AssemblerRoundTrip
  import opened EeMemory
  import opened EeMachine
  import CallLogger
  import Hooks = HookManager
  import opened Options

  const PAYLOAD_BASE: nat := 0x0072_0040
  const HEARTBEAT: nat := 0x0072_000C
  const EVENT_WORD: nat := 0x0072_0300
  const STAMP_WORD: nat := 0x0072_0308
  const CAREER_LOAD_TARGET: nat := 0x001B_1890
  const CAR_CFG_TARGET: nat := 0x005D_2380
  const EVT_PROFILE_LOADED: nat := 0x01
  const EVT_CAR_CONFIG: nat := 0x04

  const HANDLER_SAVE: seq<Op> := [
    Imm(ADDIU, SP, SP, -32),
    Imm(SW, RA, SP, 0),
    Imm(SW, S0, SP, 4),
    Imm(SW, S1, SP, 8),
    Imm(SW, T0, SP, 12),
    Imm(SW, T1, SP, 16)
  ]

  const HANDLER_BEAT: seq<Op> := [
    Imm(LUI, T0, ZERO, 0x0072),
    Imm(LW, T1, T0, 0x0C),
    Imm(ADDIU, T1, T1, 1),
    Imm(SW, T1, T0, 0x0C)
  ]

  function HandlerEvent(event: nat): seq<Op> {
    [Imm(LUI, T0, ZERO, 0x0072), Imm(ORI, T0, T0, 0x0300), Imm(LUI, T1, ZERO, 0), Imm(ORI, T1, T1, event),
     Imm(SW, T1, T0, 0)]
  }

  const HANDLER_STAMP: seq<Op> := [
    Imm(LUI, T0, ZERO, 0x0072),
    Imm(LW, T1, T0, 0x0C),
    Imm(LUI, T0, ZERO, 0x0072),
    Imm(ORI, T0, T0, 0x0308),
    Imm(SW, T1, T0, 0)
  ]

  const HANDLER_RESTORE: seq<Op> := [
    Imm(LW, T1, SP, 16),
    Imm(LW, T0, SP, 12),
    Imm(LW, S1, SP, 8),
    Imm(LW, S0, SP, 4)
  ]

  const HANDLER_RETURN: seq<Op> := [
    Imm(LW, RA, SP, 0),
    Imm(ADDIU, SP, SP, 32),
    Jr(RA),
    Nop
  ]

  /** `load_imm`: the ori is left out when the low half is zero. */
  function LoadImm(reg: Reg, value: nat): seq<Op> {
    [Imm(LUI, reg, ZERO, value / 0x1_0000 % 0x1_0000)]
    + if value % 0x1_0000 != 0 then [Imm(ORI, reg, reg, value % 0x1_0000)] else []
  }

  function HandlerOps(target: nat, event: nat): seq<Op> {
    HANDLER_SAVE + HANDLER_BEAT + HandlerEvent(event) + HANDLER_STAMP + HANDLER_RESTORE
    + (LoadImm(T9, target) + [Jalr(T9, RA), Nop]) + HANDLER_RETURN
  }

  const PAYLOAD: Program := Program(
    HandlerOps(CAREER_LOAD_TARGET, EVT_PROFILE_LOADED) + HandlerOps(CAR_CFG_TARGET, EVT_CAR_CONFIG),
    PAYLOAD_BASE,
    map["hook_career_load" := PAYLOAD_BASE, "hook_car_cfg" := PAYLOAD_BASE + 128])

  // ---- The builder -------------------------------------------------------

  method EmitSave(a: Assembler)
    requires a.Valid()
    modifies a
    ensures a.Valid() && a.labels == old(a.labels) && a.ops == old(a.ops) + HANDLER_SAVE
  {
    hide Consistent;
    a.EmitOk(Imm(ADDIU, SP, SP, -32));
    a.EmitOk(Imm(SW, RA, SP, 0));
    a.EmitOk(Imm(SW, S0, SP, 4));
    a.EmitOk(Imm(SW, S1, SP, 8));
    a.EmitOk(Imm(SW, T0, SP, 12));
    a.EmitOk(Imm(SW, T1, SP, 16));
  }

  method EmitBeat(a: Assembler)
    requires a.Valid()
    modifies a
    ensures a.Valid() && a.labels == old(a.labels) && a.ops == old(a.ops) + HANDLER_BEAT
  {
    hide Consistent;
    a.EmitOk(Imm(LUI, T0, ZERO, 0x0072));
    a.EmitOk(Imm(LW, T1, T0, 0x0C));
    a.EmitOk(Imm(ADDIU, T1, T1, 1));
    a.EmitOk(Imm(SW, T1, T0, 0x0C));
  }

  method EmitEvent(a: Assembler, event: nat)
    requires a.Valid() && event <= 65535
    modifies a
    ensures a.Valid() && a.labels == old(a.labels) && a.ops == old(a.ops) + HandlerEvent(event)
  {
    hide Consistent;
    a.EmitOk(Imm(LUI, T0, ZERO, 0x0072));
    a.EmitOk(Imm(ORI, T0, T0, 0x0300));
    a.EmitOk(Imm(LUI, T1, ZERO, 0));
    a.EmitOk(Imm(ORI, T1, T1, event));
    a.EmitOk(Imm(SW, T1, T0, 0));
  }

  method EmitStamp(a: Assembler)
    requires a.Valid()
    modifies a
    ensures a.Valid() && a.labels == old(a.labels) && a.ops == old(a.ops) + HANDLER_STAMP
  {
    hide Consistent;
    a.EmitOk(Imm(LUI, T0, ZERO, 0x0072));
    a.EmitOk(Imm(LW, T1, T0, 0x0C));
    a.EmitOk(Imm(LUI, T0, ZERO, 0x0072));
    a.EmitOk(Imm(ORI, T0, T0, 0x0308));
    a.EmitOk(Imm(SW, T1, T0, 0));
  }

  method EmitRestore(a: Assembler)
    requires a.Valid()
    modifies a
    ensures a.Valid() && a.labels == old(a.labels) && a.ops == old(a.ops) + HANDLER_RESTORE
  {
    hide Consistent;
    a.EmitOk(Imm(LW, T1, SP, 16));
    a.EmitOk(Imm(LW, T0, SP, 12));
    a.EmitOk(Imm(LW, S1, SP, 8));
    a.EmitOk(Imm(LW, S0, SP, 4));
  }

  method EmitOriginalCall(a: Assembler, target: nat)
    requires a.Valid()
    modifies a
    ensures a.Valid() && a.labels == old(a.labels)
    ensures a.ops == old(a.ops) + (LoadImm(T9, target) + [Jalr(T9, RA), Nop])
  {
    hide Consistent;
    var upper, lower := target / 0x1_0000 % 0x1_0000, target % 0x1_0000;
    a.EmitOk(Imm(LUI, T9, ZERO, upper));
    if lower != 0 {
      a.EmitOk(Imm(ORI, T9, T9, lower));
    }
    a.EmitOk(Jalr(T9, RA));
    a.EmitOk(Nop);
  }

  method EmitReturn(a: Assembler)
    requires a.Valid()
    modifies a
    ensures a.Valid() && a.labels == old(a.labels) && a.ops == old(a.ops) + HANDLER_RETURN
  {
    hide Consistent;
    a.EmitOk(Imm(LW, RA, SP, 0));
    a.EmitOk(Imm(ADDIU, SP, SP, 32));
    a.EmitOk(Jr(RA));
    a.EmitOk(Nop);
  }

  /** The heartbeat, the event word and its stamp. */
  method EmitNotes(a: Assembler, event: nat)
    requires a.Valid() && event <= 65535
    modifies a
    ensures a.Valid() && a.labels == old(a.labels)
    ensures a.ops == old(a.ops) + HANDLER_BEAT + HandlerEvent(event) + HANDLER_STAMP
  {
    hide Consistent, HANDLER_BEAT, HandlerEvent, HANDLER_STAMP;
    EmitBeat(a);
    EmitEvent(a, event);
    EmitStamp(a);
  }

  /** `_build_trampoline_handler`. */
  method EmitHandler(a: Assembler, name: string, target: nat, event: nat)
    requires a.Valid() && event <= 65535
    modifies a
    ensures a.Valid() && a.labels == old(a.labels)[name := a.base + 4 * |old(a.ops)|]
    ensures a.ops == old(a.ops) + HandlerOps(target, event)
  {
    hide Consistent, HANDLER_SAVE, HANDLER_BEAT, HandlerEvent, HANDLER_STAMP, HANDLER_RESTORE, HANDLER_RETURN, LoadImm;
    a.Lbl(name);
    EmitSave(a);
    EmitNotes(a, event);
    EmitRestore(a);
    EmitOriginalCall(a, target);
    EmitReturn(a);
  }

  /** A handler uses no labels and no shifts. */
  predicate Plain(op: Op) { !NeedsLabel(op) && !op.Sll? }

  lemma HandlerPlain(target: nat, event: nat)
    ensures forall k :: 0 <= k < |HandlerOps(target, event)| ==> Plain(HandlerOps(target, event)[k])
    ensures target % 0x1_0000 != 0 ==> |HandlerOps(target, event)| == 32
  {
    var body := HANDLER_BEAT + HandlerEvent(event) + HANDLER_STAMP;
    var tail := LoadImm(T9, target) + [Jalr(T9, RA), Nop];
    assert forall k :: 0 <= k < |body| ==> Plain(body[k]);
    assert forall k :: 0 <= k < |tail| ==> Plain(tail[k]);
    assert HandlerOps(target, event) == HANDLER_SAVE + body + HANDLER_RESTORE + tail + HANDLER_RETURN;
  }

  lemma PayloadLinks()
    ensures |HandlerOps(CAREER_LOAD_TARGET, EVT_PROFILE_LOADED)| == 32 == |HandlerOps(CAR_CFG_TARGET, EVT_CAR_CONFIG)|
    ensures Resolvable(PAYLOAD.ops, PAYLOAD.labels) && ShiftsFit(PAYLOAD.ops)
    ensures WordsFit(Linked(PAYLOAD.ops, PAYLOAD.base, PAYLOAD.labels))
  {
    hide HandlerOps;
    HandlerPlain(CAREER_LOAD_TARGET, EVT_PROFILE_LOADED);
    HandlerPlain(CAR_CFG_TARGET, EVT_CAR_CONFIG);
    assert forall k :: 0 <= k < |PAYLOAD.ops| ==> Plain(PAYLOAD.ops[k]);
    LinkedFits(PAYLOAD.ops, PAYLOAD.base, PAYLOAD.labels);
  }

  /** The binary half of `build_payload`. */
  method BuildPayload() returns (code: seq<Byte>)
    ensures Resolvable(PAYLOAD.ops, PAYLOAD.labels)
    ensures code == Bytes(Linked(PAYLOAD.ops, PAYLOAD.base, PAYLOAD.labels))
  {
    hide Consistent, HandlerOps, Linked, Bytes, WordsFit, Resolvable;
    PayloadLinks();
    var a := new Assembler(PAYLOAD_BASE);
    EmitHandler(a, "hook_career_load", CAREER_LOAD_TARGET, EVT_PROFILE_LOADED);
    EmitHandler(a, "hook_car_cfg", CAR_CFG_TARGET, EVT_CAR_CONFIG);
    assert a.ops == PAYLOAD.ops;
    assert a.labels == PAYLOAD.labels;
    var r := a.Link();
    code := r.value;
  }

  // ---- The guard of the first-site logger --------------------------------

  /** The word the logger's installer demands at its call site. */
  const FIRST_SITE_CURRENT: Word := 0x0C1C_8010

  /** Of all jumps, the installer replaces only the one to the address its
      trampoline forwards to, so the call it intercepts still gets there. */
  lemma FirstSiteGuardIff(target: nat)
    requires target % 4 == 0 && target < 0x1000_0000
    ensures Hooks.EncodeJal(target) == FIRST_SITE_CURRENT <==> target == CallLogger.PAYLOAD_TRAMP
  {
    hide Hooks.EncodeJal;
    Hooks.DecodeEncodedJal(target);
    assert Hooks.DecodeJal(FIRST_SITE_CURRENT) == Some(CallLogger.PAYLOAD_TRAMP);
    if target == CallLogger.PAYLOAD_TRAMP {
      FirstSiteWord();
    }
  }

  lemma FirstSiteWord()
    ensures Hooks.EncodeJal(CallLogger.PAYLOAD_TRAMP) == FIRST_SITE_CURRENT
  {
    hide BitOr;
    Pow2Values();
    OrDisjoint(3, CallLogger.PAYLOAD_TRAMP / 4, 26);
  }

  /** This payload's SetCarCfg handler stands elsewhere, so over its own call-site
      patch the installer aborts instead of bypassing the handler. */
  lemma FirstSiteRefusesThisPayload()
    ensures PAYLOAD.labels["hook_car_cfg"] == CallLogger.PAYLOAD_TRAMP + 128
    ensures Hooks.EncodeJal(PAYLOAD.labels["hook_car_cfg"]) != FIRST_SITE_CURRENT
  {
    FirstSiteGuardIff(CallLogger.PAYLOAD_TRAMP + 128);
  }

  // ---- Execution ---------------------------------------------------------

  /** Instruction k starts the handler for this target and event. */
  predicate Handler(k: nat, target: Word, event: nat) {
    || (k == 0 && target == CAREER_LOAD_TARGET && event == EVT_PROFILE_LOADED)
    || (k == 32 && target == CAR_CFG_TARGET && event == EVT_CAR_CONFIG)
  }

  lemma PayloadSound()
    ensures PAYLOAD.Sound() && |PAYLOAD.ops| == 64 && PAYLOAD.base == PAYLOAD_BASE
    ensures PAYLOAD.End() == PAYLOAD_BASE + 256
  {
    hide HandlerOps;
    PayloadLinks();
    HandlerPlain(CAREER_LOAD_TARGET, EVT_PROFILE_LOADED);
    HandlerPlain(CAR_CFG_TARGET, EVT_CAR_CONFIG);
    assert forall k :: 0 <= k < |PAYLOAD.ops| ==> Plain(PAYLOAD.ops[k]);
  }

  lemma HandlerSections(p: Program, k: nat, target: nat, event: nat)
    requires target % 0x1_0000 != 0
    requires SectionAt(p, k, HandlerOps(target, event))
    ensures SectionAt(p, k, HANDLER_SAVE) && SectionAt(p, k + 6, HANDLER_BEAT)
    ensures SectionAt(p, k + 10, HandlerEvent(event))
    ensures SectionAt(p, k + 15, HANDLER_STAMP) && SectionAt(p, k + 20, HANDLER_RESTORE)
    ensures SectionAt(p, k + 24, Call(target)) && SectionAt(p, k + 28, HANDLER_RETURN)
  {
    var call := LoadImm(T9, target) + [Jalr(T9, RA), Nop];
    assert call == Call(target);
    hide LoadImm, Call;
    var rest0 := HANDLER_SAVE + HANDLER_BEAT + HandlerEvent(event) + HANDLER_STAMP + HANDLER_RESTORE + call;
    var rest1 := HANDLER_SAVE + HANDLER_BEAT + HandlerEvent(event) + HANDLER_STAMP + HANDLER_RESTORE;
    var rest2 := HANDLER_SAVE + HANDLER_BEAT + HandlerEvent(event) + HANDLER_STAMP;
    var rest3 := HANDLER_SAVE + HANDLER_BEAT + HandlerEvent(event);
    var rest4 := HANDLER_SAVE + HANDLER_BEAT;
    Split(p, k, rest0, HANDLER_RETURN);
    Split(p, k, rest1, call);
    Split(p, k, rest2, HANDLER_RESTORE);
    Split(p, k, rest3, HANDLER_STAMP);
    Split(p, k, rest4, HandlerEvent(event));
    Split(p, k, HANDLER_SAVE, HANDLER_BEAT);
  }

  lemma Split(p: Program, k: nat, a: seq<Op>, b: seq<Op>)
    requires SectionAt(p, k, a + b)
    ensures SectionAt(p, k, a) && SectionAt(p, k + |a|, b)
  {
    forall i | 0 <= i < |a|
      ensures p.ops[k + i] == a[i]
    {
      assert (a + b)[i] == a[i];
    }
    forall i | 0 <= i < |b|
      ensures p.ops[k + |a| + i] == b[i]
    {
      assert (a + b)[|a| + i] == b[i];
      assert k + |a| + i == k + (|a| + i);
    }
  }

  lemma HandlerLayout(k: nat, target: Word, event: nat)
    requires Handler(k, target, event)
    ensures target % 0x1_0000 != 0 && SectionAt(PAYLOAD, k, HandlerOps(target, event))
  {
    hide HandlerOps;
    PayloadLinks();
  }

  ghost predicate Frame(m: Memory, a: nat, caller: Cpu) {
    && Rd32(m, a) == caller.Get(RA) && Rd32(m, a + 4) == caller.Get(S0) && Rd32(m, a + 8) == caller.Get(S1)
    && Rd32(m, a + 12) == caller.Get(T0) && Rd32(m, a + 16) == caller.Get(T1)
  }

  lemma RunSave(g: Game, s0: Cpu, n: nat, s: Cpu, k: nat) returns (t: Cpu)
    requires Reached(PAYLOAD, g, s0, n, s, k) && SectionAt(PAYLOAD, k, HANDLER_SAVE) && k + 6 < 64
    requires CallLogger.FreeStack(s.Get(SP), 32)
    ensures Reached(PAYLOAD, g, s0, n + 6, t, k + 6)
    ensures t.Get(SP) == s.Get(SP) - 32 && forall r: Reg :: r != SP ==> t.Get(r) == s.Get(r)
    ensures SameOutside(s.mem, t.mem, t.Get(SP), t.Get(SP) + 32) && Frame(t.mem, t.Get(SP), s)
  {
    hide Reached, SectionAt, Rd32, Rd8, Wr32, W, HandlerOps, PAYLOAD, Program.Sound;
    PayloadSound();
    Listing(PAYLOAD, k, HANDLER_SAVE);
    var s1 := DoAddiu(PAYLOAD, g, s0, n, s, k, SP, SP, -32);
    var a := s1.Get(SP);
    var s2 := DoSw(PAYLOAD, g, s0, n + 1, s1, k + 1, RA, SP, 0);
    var s3 := DoSw(PAYLOAD, g, s0, n + 2, s2, k + 2, S0, SP, 4);
    var s4 := DoSw(PAYLOAD, g, s0, n + 3, s3, k + 3, S1, SP, 8);
    var s5 := DoSw(PAYLOAD, g, s0, n + 4, s4, k + 4, T0, SP, 12);
    t := DoSw(PAYLOAD, g, s0, n + 5, s5, k + 5, T1, SP, 16);
    Wr32Effect(s1.mem, a, s.Get(RA));
    Wr32Effect(s2.mem, a + 4, s.Get(S0));
    Wr32Effect(s3.mem, a + 8, s.Get(S1));
    Wr32Effect(s4.mem, a + 12, s.Get(T0));
    Wr32Effect(s5.mem, a + 16, s.Get(T1));
  }

  lemma RunBeat(g: Game, s0: Cpu, n: nat, s: Cpu, k: nat) returns (t: Cpu)
    requires Reached(PAYLOAD, g, s0, n, s, k) && SectionAt(PAYLOAD, k, HANDLER_BEAT) && k + 4 < 64
    ensures Reached(PAYLOAD, g, s0, n + 4, t, k + 4)
    ensures t.mem == Wr32(s.mem, HEARTBEAT, W(Rd32(s.mem, HEARTBEAT) + 1))
    ensures forall r: Reg :: r != T0 && r != T1 ==> t.Get(r) == s.Get(r)
  {
    hide Reached, SectionAt, Rd32, Wr32, W, HandlerOps, PAYLOAD, Program.Sound;
    PayloadSound();
    Listing(PAYLOAD, k, HANDLER_BEAT);
    var s1 := DoLui(PAYLOAD, g, s0, n, s, k, T0, 0x72);
    var s2 := DoLw(PAYLOAD, g, s0, n + 1, s1, k + 1, T1, T0, 0x0C);
    var s3 := DoAddiu(PAYLOAD, g, s0, n + 2, s2, k + 2, T1, T1, 1);
    t := DoSw(PAYLOAD, g, s0, n + 3, s3, k + 3, T1, T0, 0x0C);
  }

  lemma RunEvent(g: Game, s0: Cpu, n: nat, s: Cpu, k: nat, event: nat) returns (t: Cpu)
    requires Reached(PAYLOAD, g, s0, n, s, k) && SectionAt(PAYLOAD, k, HandlerEvent(event)) && k + 5 < 64
    requires event < 0x1_0000
    ensures Reached(PAYLOAD, g, s0, n + 5, t, k + 5)
    ensures t.mem == Wr32(s.mem, EVENT_WORD, event)
    ensures forall r: Reg :: r != T0 && r != T1 ==> t.Get(r) == s.Get(r)
  {
    hide Reached, SectionAt, Rd32, Wr32, W, HandlerOps, PAYLOAD, Program.Sound;
    PayloadSound();
    Listing(PAYLOAD, k, HandlerEvent(event));
    var s1 := DoLui(PAYLOAD, g, s0, n, s, k, T0, 0x72);
    var s2 := DoOri(PAYLOAD, g, s0, n + 1, s1, k + 1, T0, T0, 0x0300);
    var s3 := DoLui(PAYLOAD, g, s0, n + 2, s2, k + 2, T1, 0);
    var s4 := DoOri(PAYLOAD, g, s0, n + 3, s3, k + 3, T1, T1, event);
    t := DoSw(PAYLOAD, g, s0, n + 4, s4, k + 4, T1, T0, 0);
  }

  lemma RunStamp(g: Game, s0: Cpu, n: nat, s: Cpu, k: nat) returns (t: Cpu)
    requires Reached(PAYLOAD, g, s0, n, s, k) && SectionAt(PAYLOAD, k, HANDLER_STAMP) && k + 5 < 64
    ensures Reached(PAYLOAD, g, s0, n + 5, t, k + 5)
    ensures t.mem == Wr32(s.mem, STAMP_WORD, Rd32(s.mem, HEARTBEAT))
    ensures forall r: Reg :: r != T0 && r != T1 ==> t.Get(r) == s.Get(r)
  {
    hide Reached, SectionAt, Rd32, Wr32, W, HandlerOps, PAYLOAD, Program.Sound;
    PayloadSound();
    Listing(PAYLOAD, k, HANDLER_STAMP);
    var s1 := DoLui(PAYLOAD, g, s0, n, s, k, T0, 0x72);
    var s2 := DoLw(PAYLOAD, g, s0, n + 1, s1, k + 1, T1, T0, 0x0C);
    var s3 := DoLui(PAYLOAD, g, s0, n + 2, s2, k + 2, T0, 0x72);
    var s4 := DoOri(PAYLOAD, g, s0, n + 3, s3, k + 3, T0, T0, 0x0308);
    t := DoSw(PAYLOAD, g, s0, n + 4, s4, k + 4, T1, T0, 0);
  }

  lemma RunRestore(g: Game, s0: Cpu, n: nat, s: Cpu, k: nat, caller: Cpu) returns (t: Cpu)
    requires Reached(PAYLOAD, g, s0, n, s, k) && SectionAt(PAYLOAD, k, HANDLER_RESTORE) && k + 4 < 64
    requires s.Get(SP) % 4 == 0 && s.Get(SP) + 32 < 0x1_0000_0000 && Frame(s.mem, s.Get(SP), caller)
    ensures Reached(PAYLOAD, g, s0, n + 4, t, k + 4) && t.mem == s.mem
    ensures forall r: Reg :: t.Get(r) == if r in {T0, T1, S0, S1} then caller.Get(r) else s.Get(r)
  {
    hide Reached, SectionAt, Rd32, W, HandlerOps, PAYLOAD, Program.Sound;
    PayloadSound();
    Listing(PAYLOAD, k, HANDLER_RESTORE);
    var s1 := DoLw(PAYLOAD, g, s0, n, s, k, T1, SP, 16);
    var s2 := DoLw(PAYLOAD, g, s0, n + 1, s1, k + 1, T0, SP, 12);
    var s3 := DoLw(PAYLOAD, g, s0, n + 2, s2, k + 2, S1, SP, 8);
    t := DoLw(PAYLOAD, g, s0, n + 3, s3, k + 3, S0, SP, 4);
  }

  lemma RunReturn(g: Game, s0: Cpu, n: nat, s: Cpu, k: nat) returns (t: Cpu)
    requires Reached(PAYLOAD, g, s0, n, s, k) && SectionAt(PAYLOAD, k, HANDLER_RETURN)
    requires s.Get(SP) % 4 == 0 && s.Get(SP) + 32 < 0x1_0000_0000
    ensures Run(g, s0, n + 4) == Some(t) && t.mem == s.mem
    ensures t.Get(RA) == Rd32(s.mem, s.Get(SP)) == t.pc && t.npc == W(t.pc + 4)
    ensures t.Get(SP) == s.Get(SP) + 32 && forall r: Reg :: r != RA && r != SP ==> t.Get(r) == s.Get(r)
  {
    hide Reached, SectionAt, Rd32, W, HandlerOps, PAYLOAD, Program.Sound, Run;
    PayloadSound();
    Listing(PAYLOAD, k, HANDLER_RETURN);
    var s1 := DoLw(PAYLOAD, g, s0, n, s, k, RA, SP, 0);
    var s2 := DoAddiu(PAYLOAD, g, s0, n + 1, s1, k + 1, SP, SP, 32);
    var s3 := DoJr(PAYLOAD, g, s0, n + 2, s2, k + 2, RA);
    t := DoSlot(PAYLOAD, g, s0, n + 3, s3, k + 3, s2.Get(RA));
  }

  predicate InNotes(a: nat) {
    || HEARTBEAT <= a < HEARTBEAT + 4
    || EVENT_WORD <= a < EVENT_WORD + 4
    || STAMP_WORD <= a < STAMP_WORD + 4
  }

  /** Memory changes only in the three mailbox words and the 32 bytes below the
      entry sp; the heartbeat counts up and stamps the event. */
  ghost predicate Noted(m: Memory, m': Memory, sp: nat, event: nat) {
    && Rd32(m', HEARTBEAT) == W(Rd32(m, HEARTBEAT) + 1)
    && Rd32(m', EVENT_WORD) == event && Rd32(m', STAMP_WORD) == W(Rd32(m, HEARTBEAT) + 1)
    && forall a: nat :: !InNotes(a) && !(sp - 32 <= a < sp) ==> Rd8(m', a) == Rd8(m, a)
  }

  lemma NotesEffect(m: Memory, event: Word)
    ensures var beat := W(Rd32(m, HEARTBEAT) + 1);
            var m1 := Wr32(m, HEARTBEAT, beat);
            var m2 := Wr32(m1, EVENT_WORD, event);
            var m3 := Wr32(m2, STAMP_WORD, beat);
            && Rd32(m2, HEARTBEAT) == beat && Rd32(m3, HEARTBEAT) == beat
            && Rd32(m3, EVENT_WORD) == event && Rd32(m3, STAMP_WORD) == beat
            && forall a: nat :: !InNotes(a) ==> Rd8(m3, a) == Rd8(m, a)
  {
    hide Rd32, Wr32, Rd8, W;
    var beat := W(Rd32(m, HEARTBEAT) + 1);
    var m1 := Wr32(m, HEARTBEAT, beat);
    var m2 := Wr32(m1, EVENT_WORD, event);
    Wr32Effect(m, HEARTBEAT, beat);
    Wr32Effect(m1, EVENT_WORD, event);
    Wr32Effect(m2, STAMP_WORD, beat);
  }

  /** From the entry of a handler to the call of the original function. */
  lemma RunHandlerCall(k: nat, target: Word, event: nat, g: Game, s0: Cpu) returns (c: Cpu)
    requires Handler(k, target, event) && CallLogger.FreeStack(s0.Get(SP), 32)
    requires Reached(PAYLOAD, g, s0, 0, s0, k)
    ensures Run(g, s0, 28) == Some(c) && c.pc == target && PAYLOAD.LoadedIn(c.mem)
    ensures c.Get(SP) == s0.Get(SP) - 32 && c.Get(RA) == PAYLOAD_BASE + 4 * k + 112
    ensures forall r: Reg :: r !in {SP, RA, T9} ==> c.Get(r) == s0.Get(r)
    ensures Noted(s0.mem, c.mem, s0.Get(SP), event) && Rd32(c.mem, c.Get(SP)) == s0.Get(RA)
  {
    hide Run, Reached, SectionAt, HandlerOps, PAYLOAD, Rd8, Rd32, Wr32, W, Program.Sound, CodeAt, Linked;
    PayloadSound();
    HandlerLayout(k, target, event);
    HandlerSections(PAYLOAD, k, target, event);
    var s6 := RunSave(g, s0, 0, s0, k);
    var s10 := RunBeat(g, s0, 6, s6, k + 6);
    var s15 := RunEvent(g, s0, 10, s10, k + 10, event);
    var s20 := RunStamp(g, s0, 15, s15, k + 15);
    var sp := s6.Get(SP);
    NotesEffect(s6.mem, event);
    Rd32Same(s0.mem, s6.mem, HEARTBEAT);
    FrameKept(s6.mem, s20.mem, sp, s0);
    var s24 := RunRestore(g, s0, 20, s20, k + 20, s0);
    c := RunCall(PAYLOAD, g, s0, 24, s24, k + 24, target);
  }

  lemma FrameKept(m: Memory, m': Memory, a: nat, caller: Cpu)
    requires Frame(m, a, caller) && SameWithin(m, m', a, a + 32)
    ensures Frame(m', a, caller)
  {
    Rd32Same(m, m', a);
    Rd32Same(m, m', a + 4);
    Rd32Same(m, m', a + 8);
    Rd32Same(m, m', a + 12);
    Rd32Same(m, m', a + 16);
  }

  /** Both handlers are transparent: the original function is entered with every
      register as the caller left it, but for sp, ra and t9.  If that one call
      keeps to the calling convention, control returns to the caller with sp and
      ra restored and everything else as the original left it. */
  lemma HandlerTransparent(k: nat, target: Word, event: nat, g: Game, s0: Cpu) returns (c: Cpu, f: Cpu)
    requires Handler(k, target, event) && g.entry == target
    requires s0.pc == PAYLOAD_BASE + 4 * k && s0.npc == s0.pc + 4
    requires Resolvable(PAYLOAD.ops, PAYLOAD.labels) && PAYLOAD.LoadedIn(s0.mem)
    requires CallLogger.FreeStack(s0.Get(SP), 32)
    ensures Run(g, s0, 28) == Some(c) && c.pc == target
    ensures c.Get(SP) == s0.Get(SP) - 32
    ensures forall r: Reg :: r !in {SP, RA, T9} ==> c.Get(r) == s0.Get(r)
    ensures Noted(s0.mem, c.mem, s0.Get(SP), event)
    ensures AbiReturn(c, g.body(c), 32, PAYLOAD) ==> Run(g, s0, 33) == Some(f) && Resumed(s0, g.body(c), f)
  {
    hide Run, SectionAt, HandlerOps, PAYLOAD, Rd8, Rd32, W, Program.Sound, CodeAt, Linked;
    PayloadSound();
    HandlerLayout(k, target, event);
    HandlerSections(PAYLOAD, k, target, event);
    RunZero(g, s0);
    assert Reached(PAYLOAD, g, s0, 0, s0, k);
    hide Reached;
    c := RunHandlerCall(k, target, event, g, s0);
    f := c;
    var r := g.body(c);
    if AbiReturn(c, r, 32, PAYLOAD) {
      Returned(PAYLOAD, g, s0, 28, c, k + 28, 32);
      Rd32Same(c.mem, r.mem, c.Get(SP));
      f := RunReturn(g, s0, 29, r, k + 28);
    }
  }

  /** Seen by its own caller, a handler is a function that keeps to the calling
      convention, for every frame above sp and every program p apart from the
      mailbox words and the handler's frame, as long as the original leaves them
      alone too.  So it may stand where a trampoline calls a game function. */
  lemma HandlerKeepsConvention(k: nat, target: Word, event: nat, g: Game, s0: Cpu, frame: nat, p: Program)
      returns (c: Cpu, f: Cpu)
    requires Handler(k, target, event) && g.entry == target
    requires s0.pc == PAYLOAD_BASE + 4 * k && s0.npc == s0.pc + 4
    requires Resolvable(PAYLOAD.ops, PAYLOAD.labels) && PAYLOAD.LoadedIn(s0.mem)
    requires CallLogger.FreeStack(s0.Get(SP), 32)
    requires s0.Get(SP) + frame <= CallLogger.MAILBOX || CallLogger.MAILBOX_END + 32 <= s0.Get(SP)
    requires forall a :: p.base <= a < p.End() ==> !InNotes(a) && !(s0.Get(SP) - 32 <= a < s0.Get(SP))
    ensures Run(g, s0, 28) == Some(c) && c.pc == target
    ensures AbiReturn(c, g.body(c), 32 + frame, PAYLOAD) && SameWithin(c.mem, g.body(c).mem, p.base, p.End()) ==>
              Run(g, s0, 33) == Some(f) && AbiReturn(s0, f, frame, p)
  {
    hide Run, PAYLOAD, W, Rd8, Rd32, CodeAt, Linked;
    c, f := HandlerTransparent(k, target, event, g, s0);
    var r, sp := g.body(c), s0.Get(SP);
    if AbiReturn(c, r, 32 + frame, PAYLOAD) && SameWithin(c.mem, r.mem, p.base, p.End()) {
      assert SameWithin(c.mem, r.mem, c.Get(SP), c.Get(SP) + 32);
      assert AbiReturn(c, r, 32, PAYLOAD);
      assert SameWithin(s0.mem, c.mem, sp, sp + frame);
      assert SameWithin(s0.mem, c.mem, p.base, p.End());
    }
  }
}
