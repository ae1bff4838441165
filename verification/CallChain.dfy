/** The first-site logger in front of the payload handler at the address it chains
    to, in front of the original function: one run of the machine. */
module CallChain {
  import opened MipsDisasm
  import opened MipsAssembler
  import opened EeMemory
  import opened EeMachine
  import opened CallLogger
  import opened PayloadHandlers
  import opened Options

  const LOGGER: Program := Logger(FIRST_SITE_TRAMP, PAYLOAD_TRAMP)

  /** Both programs are in memory, and the machine enters the logger with room on
      the stack for both frames. */
  ghost predicate ChainEntered(g: Game, s: Cpu) {
    && s.pc == FIRST_SITE_TRAMP && s.npc == FIRST_SITE_TRAMP + 4 && g.entry == CAREER_LOAD_TARGET
    && Resolvable(LOGGER.ops, LOGGER.labels) && LOGGER.LoadedIn(s.mem)
    && Resolvable(PAYLOAD.ops, PAYLOAD.labels) && PAYLOAD.LoadedIn(s.mem)
    && FreeStack(s.Get(SP), 48)
  }

  /** The logger's call reaches the handler, which is still in memory. */
  lemma ChainCalls(g: Game, s0: Cpu) returns (c: Cpu)
    requires ChainEntered(g, s0)
    ensures Run(g, s0, 23) == Some(c) && c.pc == PAYLOAD_BASE && c.npc == PAYLOAD_BASE + 4
    ensures c.Get(SP) == s0.Get(SP) - 16 && c.Get(RA) == LOGGER.base + 92
    ensures forall r: Reg :: r !in {AT, T8, T9, SP, RA} ==> c.Get(r) == s0.Get(r)
    ensures Logged(s0.mem, c.mem, s0) && LogFrame(s0.mem, c.mem, s0.Get(SP))
    ensures Rd32(c.mem, s0.Get(SP) - 16) == s0.Get(RA)
    ensures LOGGER.Sound() && LOGGER.LoadedIn(c.mem) && PAYLOAD.LoadedIn(c.mem)
  {
    hide Run, Reached, SectionAt, Logger, LoggerOps, PAYLOAD, Rd8, Rd32, Program.Sound, CodeAt, Linked, Logged;
    LoggerSound(FIRST_SITE_TRAMP, PAYLOAD_TRAMP);
    LoggerLayout(FIRST_SITE_TRAMP, PAYLOAD_TRAMP);
    LogStart(FIRST_SITE_TRAMP, PAYLOAD_TRAMP, g, s0);
    c := RunLogCall(FIRST_SITE_TRAMP, PAYLOAD_TRAMP, g, s0);
    PayloadSound();
    CodeKept(s0.mem, c.mem, PAYLOAD.base, Linked(PAYLOAD.ops, PAYLOAD.base, PAYLOAD.labels)) by {
      assert SameWithin(s0.mem, c.mem, PAYLOAD_BASE, PAYLOAD_BASE + 256);
    }
  }

  /** Transparency composes: the original is entered with the caller's arguments and
      saved registers, after the call was logged and noted, and if that one call
      keeps to the calling convention (and off the logger's code), the first caller
      is resumed 60 steps after it entered the logger, with everything but sp and ra
      as the original left it. */
  lemma ChainTransparent(g: Game, s0: Cpu) returns (c: Cpu, d: Cpu, f: Cpu)
    requires ChainEntered(g, s0)
    ensures Run(g, s0, 23) == Some(c) && c.pc == PAYLOAD_TRAMP && Logged(s0.mem, c.mem, s0)
    ensures Run(g, s0, 51) == Some(d) && d.pc == CAREER_LOAD_TARGET && d.Get(SP) == s0.Get(SP) - 48
    ensures forall r: Reg :: r !in {AT, T8, T9, SP, RA} ==> d.Get(r) == s0.Get(r)
    ensures Noted(c.mem, d.mem, c.Get(SP), EVT_PROFILE_LOADED)
    ensures AbiReturn(d, g.body(d), 48, PAYLOAD) && SameWithin(d.mem, g.body(d).mem, LOGGER.base, LOGGER.End()) ==>
              Run(g, s0, 60) == Some(f) && Resumed(s0, g.body(d), f)
  {
    hide Run, Reached, SectionAt, Logger, LoggerOps, PAYLOAD, Rd8, Rd32, W, Program.Sound, CodeAt, Linked, Logged;
    LoggerLayout(FIRST_SITE_TRAMP, PAYLOAD_TRAMP);
    c := ChainCalls(g, s0);
    var t: Cpu;
    d, t := HandlerChained(g, c);
    RunOn(g, s0, 23, c, 28);
    f := t;
    if AbiReturn(d, g.body(d), 48, PAYLOAD) && SameWithin(d.mem, g.body(d).mem, LOGGER.base, LOGGER.End()) {
      ReturnedAfter(LOGGER, g, s0, 23, c, 33, t, 23, 16);
      f := RunLogReturn(FIRST_SITE_TRAMP, PAYLOAD_TRAMP, g, s0, 56, t);
      Rd32Same(c.mem, t.mem, c.Get(SP));
    }
  }

  /** The handler's part, seen as the call it is for the logger. */
  lemma HandlerChained(g: Game, c: Cpu) returns (d: Cpu, t: Cpu)
    requires c.pc == PAYLOAD_BASE && c.npc == PAYLOAD_BASE + 4 && g.entry == CAREER_LOAD_TARGET
    requires Resolvable(PAYLOAD.ops, PAYLOAD.labels) && PAYLOAD.LoadedIn(c.mem)
    requires FreeStack(c.Get(SP), 32) && (c.Get(SP) + 16 <= MAILBOX || MAILBOX_END + 32 <= c.Get(SP))
    ensures Run(g, c, 28) == Some(d) && d.pc == CAREER_LOAD_TARGET && d.Get(SP) == c.Get(SP) - 32
    ensures forall r: Reg :: r !in {SP, RA, T9} ==> d.Get(r) == c.Get(r)
    ensures Noted(c.mem, d.mem, c.Get(SP), EVT_PROFILE_LOADED)
    ensures AbiReturn(d, g.body(d), 48, PAYLOAD) && SameWithin(d.mem, g.body(d).mem, LOGGER.base, LOGGER.End()) ==>
              Run(g, c, 33) == Some(t) && AbiReturn(c, t, 16, LOGGER) && Resumed(c, g.body(d), t)
  {
    hide Run, Reached, Logger, LoggerOps, PAYLOAD, Rd8, Rd32, W, CodeAt, Linked;
    LoggerLayout(FIRST_SITE_TRAMP, PAYLOAD_TRAMP);
    d, t := HandlerTransparent(0, CAREER_LOAD_TARGET, EVT_PROFILE_LOADED, g, c);
    var d', t' := HandlerKeepsConvention(0, CAREER_LOAD_TARGET, EVT_PROFILE_LOADED, g, c, 16, LOGGER);
    assert d' == d;
    var r, sp := g.body(d), d.Get(SP);
    if AbiReturn(d, r, 48, PAYLOAD) {
      assert SameWithin(d.mem, r.mem, sp, sp + 32);
      assert AbiReturn(d, r, 32, PAYLOAD);
    }
  }
}
