/** A small-step model of the processor that runs the payload: 32 registers of
    32 bits, byte memory, and a next-pc for the branch delay slot (MIPS IV
    Instruction Set, "Jump and Branch Instructions").  Instructions are fetched
    from memory and decoded; calls into game code are one opaque step. */
module EeMachine {
  import opened Bits
  import opened MipsDisasm
  import opened MipsAssembler
  import opened AssemblerRoundTrip
  import opened EeMemory
  import opened Options

  type Regs = r: seq<Word> | |r| == 32 witness seq(32, _ => 0)

  datatype Cpu = Cpu(regs: Regs, mem: Memory, pc: Word, npc: Word) {
    function Get(r: Reg): Word {
      if r == ZERO then 0 else regs[r]
    }

    function Set(r: Reg, v: Word): Cpu {
      if r == ZERO then this else this.(regs := regs[r := v])
    }

    /** Fall through to the next instruction. */
    function Next(): Cpu {
      this.(pc := npc, npc := W(npc + 4))
    }

    /** Transfer control after the delay slot. */
    function JumpTo(target: int): Cpu {
      this.(pc := npc, npc := W(target))
    }
  }

  function W(x: int): (w: Word)
    ensures 0 <= x < 0x1_0000_0000 ==> w == x
  {
    x % 0x1_0000_0000
  }

  lemma WAdd(x: int, y: int)
    ensures W(x + W(y)) == W(x + y)
  {
    assert x + y == (x + W(y)) + 0x1_0000_0000 * (y / 0x1_0000_0000);
  }

  lemma WAligned(x: int, y: int)
    requires x % 4 == 0 && y % 4 == 0
    ensures W(x + y) % 4 == 0
  {
    var q := (x + y) / 4;
    DivModUnique(x + y, 0x1_0000_0000, q / 0x4000_0000, 4 * (q % 0x4000_0000));
  }

  function SignExtendByte(b: Byte): Word {
    if b < 128 then b else b + 0xFFFF_FF00
  }

  function OrWord(x: Word, y: Word): Word {
    Pow2Values();
    OrBound(x, y, 32);
    BitOr(x, y)
  }

  lemma OrLowHalf(x: Word, imm: Word)
    requires x % 0x1_0000 == 0 && imm < 0x1_0000
    ensures OrWord(x, imm) == W(x + imm)
  {
    Pow2Values();
    OrDisjoint(x / 0x1_0000, imm, 16);
  }

  /** One decoded instruction.  An unaligned word access is an address error,
      and an instruction no payload uses is outside the model; both give None. */
  function Exec(i: Instr, s: Cpu): Option<Cpu> {
    match i
    case INop => Some(s.Next())
    case IShift(fn, rd, rt, sa) =>
      if fn == 0x00 && sa < 32 then Some(s.Set(rd, W(s.Get(rt) * Pow2(sa))).Next()) else None
    case IAlu(fn, rd, rs, rt) =>
      if fn == 0x21 then Some(s.Set(rd, W(s.Get(rs) + s.Get(rt))).Next())
      else if fn == 0x23 then Some(s.Set(rd, W(s.Get(rs) - s.Get(rt))).Next())
      else None
    case IJr(rs) => Some(s.JumpTo(s.Get(rs)))
    case IJalr(rd, rs) => Some(s.Set(rd, W(s.pc + 8)).JumpTo(s.Get(rs)))
    case IJump(op, target) =>
      Some((if op == 0x03 then s.Set(RA, W(s.pc + 8)) else s).JumpTo(target))
    case ILui(rt, imm) => Some(s.Set(rt, W(imm * 0x1_0000)).Next())
    case IBranch(op, rs, rt, target) =>
      if op == 0x04 then Some(if s.Get(rs) == s.Get(rt) then s.JumpTo(target) else s.Next())
      else if op == 0x05 then Some(if s.Get(rs) != s.Get(rt) then s.JumpTo(target) else s.Next())
      else None
    case IImmSigned(op, rt, rs, imm) =>
      if op == 0x09 then Some(s.Set(rt, W(s.Get(rs) + imm)).Next()) else None
    case IImmUnsigned(op, rt, rs, imm) =>
      if op == 0x0C && imm < 0x1_0000 then Some(s.Set(rt, BitAnd(s.Get(rs), imm)).Next())
      else if op == 0x0D && imm < 0x1_0000 then Some(s.Set(rt, OrWord(s.Get(rs), imm)).Next())
      else None
    case IMem(op, rt, base, offset) => ExecMem(op, rt, W(s.Get(base) + offset), s)
    case _ => None
  }

  function ExecMem(op: nat, rt: Reg, a: Word, s: Cpu): Option<Cpu> {
    if op == 0x23 then
      if a % 4 == 0 then Some(s.Set(rt, Rd32(s.mem, a)).Next()) else None
    else if op == 0x2B then
      if a % 4 == 0 then Some(s.(mem := Wr32(s.mem, a, s.Get(rt))).Next()) else None
    else if op == 0x20 then Some(s.Set(rt, SignExtendByte(Rd8(s.mem, a))).Next())
    else if op == 0x24 then Some(s.Set(rt, Rd8(s.mem, a)).Next())
    else if op == 0x28 then Some(s.(mem := Wr8(s.mem, a, s.Get(rt) % 256)).Next())
    else None
  }

  /** A function of the game: entered at an address, it runs to its return in
      one step.  What it may do is stated by `AbiReturn`. */
  datatype Game = Game(entry: Word, body: Cpu -> Cpu)

  function Step(g: Game, s: Cpu): Option<Cpu> {
    if s.pc == g.entry then Some(g.body(s))
    else if s.pc % 4 != 0 then None
    else Exec(Decode(s.pc, Rd32(s.mem, s.pc)), s)
  }

  function Run(g: Game, s: Cpu, n: nat): Option<Cpu> {
    if n == 0 then Some(s)
    else match Run(g, s, n - 1)
      case None => None
      case Some(t) => Step(g, t)
  }

  lemma RunZero(g: Game, s: Cpu)
    ensures Run(g, s, 0) == Some(s)
  {}

  /** The words of a program are in memory at its base. */
  ghost predicate CodeAt(m: Memory, base: nat, ws: seq<nat>) {
    forall k :: 0 <= k < |ws| ==> Rd32(m, base + 4 * k) == ws[k]
  }

  lemma CodeKept(m: Memory, m': Memory, base: nat, ws: seq<nat>)
    requires CodeAt(m, base, ws) && SameWithin(m, m', base, base + 4 * |ws|)
    ensures CodeAt(m', base, ws)
  {
    forall k | 0 <= k < |ws|
      ensures Rd32(m', base + 4 * k) == ws[k]
    {
      Rd32Same(m, m', base + 4 * k);
    }
  }

  /** Writing the linked bytes of a program loads it. */
  lemma {:induction false} WriteLoads(m: Memory, base: nat, ws: seq<nat>)
    requires WordsFit(ws)
    ensures CodeAt(WrBytes(m, base, Bytes(ws)), base, ws)
  {
    var bs := Bytes(ws);
    var m' := WrBytes(m, base, bs);
    WrBytesEffect(m, base, bs);
    hide Bytes, WrBytes, Rd8;
    forall k | 0 <= k < |ws|
      ensures Rd32(m', base + 4 * k) == ws[k]
    {
      BytesOfWord(ws, k);
      WordBytes(ws[k]);
      var four := bs[4 * k..4 * k + 4];
      assert four == LittleEndian(ws[k]);
      assert four[0] == bs[4 * k] && four[1] == bs[4 * k + 1] && four[2] == bs[4 * k + 2] && four[3] == bs[4 * k + 3];
      assert Rd8(m', base + 4 * k) == bs[4 * k];
      assert Rd8(m', base + (4 * k + 1)) == bs[4 * k + 1];
      assert Rd8(m', base + (4 * k + 2)) == bs[4 * k + 2];
      assert Rd8(m', base + (4 * k + 3)) == bs[4 * k + 3];
    }
  }

  lemma {:induction false} BytesOfWord(ws: seq<nat>, k: nat)
    requires k < |ws|
    ensures Bytes(ws)[4 * k..4 * k + 4] == LittleEndian(ws[k])
  {
    var n := |ws| - 1;
    if k < n {
      BytesOfWord(ws[..n], k);
      assert Bytes(ws)[4 * k..4 * k + 4] == Bytes(ws[..n])[4 * k..4 * k + 4];
    }
  }

  /** A linked program and where it sits. */
  datatype Program = Program(ops: seq<Op>, base: nat, labels: map<string, nat>) {
    /** It resolves, its addresses are 32-bit words, and it decodes to itself. */
    ghost predicate Sound() {
      && Resolvable(ops, labels) && PlacedLabels(labels, base)
      && base % 4 == 0 && base + 4 * |ops| < 0x1_0000_0000
      && forall k :: 0 <= k < |ops| ==> Encodable(ops[k], base + 4 * k, labels)
    }

    ghost predicate LoadedIn(m: Memory)
      requires Resolvable(ops, labels)
    {
      CodeAt(m, base, Linked(ops, base, labels))
    }

    function End(): nat { base + 4 * |ops| }
  }

  /** The machine has run n steps from s0 and is about to execute instruction
      k of the program, which is in its memory, possibly in a delay slot. */
  ghost predicate InSlot(p: Program, g: Game, s0: Cpu, n: nat, s: Cpu, k: nat) {
    && p.Sound() && p.LoadedIn(s.mem) && k < |p.ops|
    && Run(g, s0, n) == Some(s)
    && s.pc == p.base + 4 * k
    && (g.entry < p.base || p.End() <= g.entry)
  }

  /** The same, and not in a delay slot. */
  ghost predicate Reached(p: Program, g: Game, s0: Cpu, n: nat, s: Cpu, k: nat) {
    InSlot(p, g, s0, n, s, k) && s.npc == p.base + 4 * k + 4
  }

  /** Fetching instruction k of a loaded program executes what its emitter call
      stands for. */
  lemma Tick(p: Program, g: Game, s0: Cpu, n: nat, s: Cpu, k: nat)
    requires InSlot(p, g, s0, n, s, k)
    ensures Run(g, s0, n + 1) == Exec(Meaning(p.ops[k], p.labels), s)
  {
    hide Exec;
    LinkedDecodes(p.ops, p.base, p.labels, k);
  }

  /** The program contains the section from instruction k on. */
  predicate SectionAt(p: Program, k: nat, section: seq<Op>) {
    k + |section| <= |p.ops| && forall i :: 0 <= i < |section| ==> p.ops[k + i] == section[i]
  }

  /** The first instructions of a section, one by one. */
  lemma Listing(p: Program, k: nat, section: seq<Op>)
    requires SectionAt(p, k, section)
    ensures k + |section| <= |p.ops|
    ensures |section| > 0 ==> p.ops[k] == section[0]
    ensures |section| > 1 ==> p.ops[k + 1] == section[1]
    ensures |section| > 2 ==> p.ops[k + 2] == section[2]
    ensures |section| > 3 ==> p.ops[k + 3] == section[3]
    ensures |section| > 4 ==> p.ops[k + 4] == section[4]
    ensures |section| > 5 ==> p.ops[k + 5] == section[5]
    ensures |section| > 6 ==> p.ops[k + 6] == section[6]
    ensures |section| > 7 ==> p.ops[k + 7] == section[7]
    ensures |section| > 8 ==> p.ops[k + 8] == section[8]
    ensures |section| > 9 ==> p.ops[k + 9] == section[9]
  {
    assert |section| > 0 ==> p.ops[k + 0] == section[0];
  }

  // ---- One rule per instruction the trampolines use -----------------------

  lemma DoLui(p: Program, g: Game, s0: Cpu, n: nat, s: Cpu, k: nat, rt: Reg, imm: nat) returns (t: Cpu)
    requires Reached(p, g, s0, n, s, k) && k + 1 < |p.ops| && p.ops[k] == Imm(LUI, rt, ZERO, imm) && imm < 0x1_0000
    ensures Reached(p, g, s0, n + 1, t, k + 1) && t == s.Set(rt, imm * 0x1_0000).Next()
  {
    hide Run, CodeAt;
    Tick(p, g, s0, n, s, k);
    t := s.Set(rt, imm * 0x1_0000).Next();
  }

  lemma DoAddiu(p: Program, g: Game, s0: Cpu, n: nat, s: Cpu, k: nat, rt: Reg, rs: Reg, imm: int) returns (t: Cpu)
    requires Reached(p, g, s0, n, s, k) && k + 1 < |p.ops| && p.ops[k] == Imm(ADDIU, rt, rs, imm)
    requires -0x8000 <= imm < 0x8000
    ensures Reached(p, g, s0, n + 1, t, k + 1) && t == s.Set(rt, W(s.Get(rs) + imm)).Next()
  {
    hide Run, CodeAt;
    Tick(p, g, s0, n, s, k);
    t := s.Set(rt, W(s.Get(rs) + imm)).Next();
  }

  lemma DoOri(p: Program, g: Game, s0: Cpu, n: nat, s: Cpu, k: nat, rt: Reg, rs: Reg, imm: nat) returns (t: Cpu)
    requires Reached(p, g, s0, n, s, k) && k + 1 < |p.ops| && p.ops[k] == Imm(ORI, rt, rs, imm) && imm < 0x1_0000
    requires s.Get(rs) % 0x1_0000 == 0
    ensures Reached(p, g, s0, n + 1, t, k + 1) && t == s.Set(rt, W(s.Get(rs) + imm)).Next()
  {
    hide Run, CodeAt, OrWord;
    Tick(p, g, s0, n, s, k);
    OrLowHalf(s.Get(rs), imm);
    t := s.Set(rt, W(s.Get(rs) + imm)).Next();
  }

  /** Masking with 2^bits - 1. */
  lemma DoAndi(p: Program, g: Game, s0: Cpu, n: nat, s: Cpu, k: nat, rt: Reg, rs: Reg, bits: nat) returns (t: Cpu)
    requires bits < 16 && Pow2(bits) <= 0x8000
    requires Reached(p, g, s0, n, s, k) && k + 1 < |p.ops| && p.ops[k] == Imm(ANDI, rt, rs, Pow2(bits) - 1)
    ensures Reached(p, g, s0, n + 1, t, k + 1) && t == s.Set(rt, W(s.Get(rs) % Pow2(bits))).Next()
  {
    hide Run, CodeAt;
    Tick(p, g, s0, n, s, k);
    AndMask(s.Get(rs), bits);
    t := s.Set(rt, W(s.Get(rs) % Pow2(bits))).Next();
  }

  lemma DoAddu(p: Program, g: Game, s0: Cpu, n: nat, s: Cpu, k: nat, rd: Reg, rs: Reg, rt: Reg) returns (t: Cpu)
    requires Reached(p, g, s0, n, s, k) && k + 1 < |p.ops| && p.ops[k] == R3(ADDU, rd, rs, rt)
    ensures Reached(p, g, s0, n + 1, t, k + 1) && t == s.Set(rd, W(s.Get(rs) + s.Get(rt))).Next()
  {
    hide Run, CodeAt;
    Tick(p, g, s0, n, s, k);
    t := s.Set(rd, W(s.Get(rs) + s.Get(rt))).Next();
  }

  lemma DoSubu(p: Program, g: Game, s0: Cpu, n: nat, s: Cpu, k: nat, rd: Reg, rs: Reg, rt: Reg) returns (t: Cpu)
    requires Reached(p, g, s0, n, s, k) && k + 1 < |p.ops| && p.ops[k] == R3(SUBU, rd, rs, rt)
    ensures Reached(p, g, s0, n + 1, t, k + 1) && t == s.Set(rd, W(s.Get(rs) - s.Get(rt))).Next()
  {
    hide Run, CodeAt;
    Tick(p, g, s0, n, s, k);
    t := s.Set(rd, W(s.Get(rs) - s.Get(rt))).Next();
  }

  lemma DoSll(p: Program, g: Game, s0: Cpu, n: nat, s: Cpu, k: nat, rd: Reg, rt: Reg, shamt: nat) returns (t: Cpu)
    requires Reached(p, g, s0, n, s, k) && k + 1 < |p.ops| && p.ops[k] == Sll(rd, rt, shamt) && 0 < shamt < 32
    ensures Reached(p, g, s0, n + 1, t, k + 1) && t == s.Set(rd, W(s.Get(rt) * Pow2(shamt))).Next()
  {
    hide Run, CodeAt;
    Tick(p, g, s0, n, s, k);
    t := s.Set(rd, W(s.Get(rt) * Pow2(shamt))).Next();
  }

  lemma DoLw(p: Program, g: Game, s0: Cpu, n: nat, s: Cpu, k: nat, rt: Reg, base: Reg, offset: int) returns (t: Cpu)
    requires Reached(p, g, s0, n, s, k) && k + 1 < |p.ops| && p.ops[k] == Imm(LW, rt, base, offset)
    requires -0x8000 <= offset < 0x8000
    requires W(s.Get(base) + offset) % 4 == 0
    ensures Reached(p, g, s0, n + 1, t, k + 1) && t == s.Set(rt, Rd32(s.mem, W(s.Get(base) + offset))).Next()
  {
    hide Run, CodeAt, Rd32;
    Tick(p, g, s0, n, s, k);
    t := s.Set(rt, Rd32(s.mem, W(s.Get(base) + offset))).Next();
  }

  lemma DoLb(p: Program, g: Game, s0: Cpu, n: nat, s: Cpu, k: nat, rt: Reg, base: Reg, offset: int) returns (t: Cpu)
    requires Reached(p, g, s0, n, s, k) && k + 1 < |p.ops| && p.ops[k] == Imm(LB, rt, base, offset)
    requires -0x8000 <= offset < 0x8000
    ensures Reached(p, g, s0, n + 1, t, k + 1)
    ensures t == s.Set(rt, SignExtendByte(Rd8(s.mem, W(s.Get(base) + offset)))).Next()
  {
    hide Run, CodeAt, Rd8;
    Tick(p, g, s0, n, s, k);
    t := s.Set(rt, SignExtendByte(Rd8(s.mem, W(s.Get(base) + offset)))).Next();
  }

  lemma DoSw(p: Program, g: Game, s0: Cpu, n: nat, s: Cpu, k: nat, rt: Reg, base: Reg, offset: int) returns (t: Cpu)
    requires Reached(p, g, s0, n, s, k) && k + 1 < |p.ops| && p.ops[k] == Imm(SW, rt, base, offset)
    requires -0x8000 <= offset < 0x8000
    requires var a := W(s.Get(base) + offset); a % 4 == 0 && (a + 4 <= p.base || p.End() <= a)
    ensures Reached(p, g, s0, n + 1, t, k + 1)
    ensures t == s.(mem := Wr32(s.mem, W(s.Get(base) + offset), s.Get(rt))).Next()
  {
    hide Run, CodeAt, Wr32, Rd32;
    Tick(p, g, s0, n, s, k);
    var a := W(s.Get(base) + offset);
    t := s.(mem := Wr32(s.mem, a, s.Get(rt))).Next();
    Wr32Effect(s.mem, a, s.Get(rt));
    CodeKept(s.mem, t.mem, p.base, Linked(p.ops, p.base, p.labels));
  }

  lemma DoSb(p: Program, g: Game, s0: Cpu, n: nat, s: Cpu, k: nat, rt: Reg, base: Reg, offset: int) returns (t: Cpu)
    requires Reached(p, g, s0, n, s, k) && k + 1 < |p.ops| && p.ops[k] == Imm(SB, rt, base, offset)
    requires -0x8000 <= offset < 0x8000
    requires var a := W(s.Get(base) + offset); a < p.base || p.End() <= a
    ensures Reached(p, g, s0, n + 1, t, k + 1)
    ensures t == s.(mem := Wr8(s.mem, W(s.Get(base) + offset), s.Get(rt) % 256)).Next()
  {
    hide Run, CodeAt, Wr8, Rd8;
    Tick(p, g, s0, n, s, k);
    var a := W(s.Get(base) + offset);
    t := s.(mem := Wr8(s.mem, a, s.Get(rt) % 256)).Next();
    Wr8Effect(s.mem, a, s.Get(rt) % 256);
    CodeKept(s.mem, t.mem, p.base, Linked(p.ops, p.base, p.labels));
  }

  /** A transfer of control: the delay slot runs next, with the target behind
      it. */
  ghost predicate Leaving(p: Program, g: Game, s0: Cpu, n: nat, s: Cpu, k: nat, target: Word) {
    InSlot(p, g, s0, n, s, k) && s.npc == target
  }

  lemma DoJr(p: Program, g: Game, s0: Cpu, n: nat, s: Cpu, k: nat, rs: Reg) returns (t: Cpu)
    requires Reached(p, g, s0, n, s, k) && k + 1 < |p.ops| && p.ops[k] == Jr(rs)
    ensures Leaving(p, g, s0, n + 1, t, k + 1, s.Get(rs)) && t == s.JumpTo(s.Get(rs))
  {
    hide Run, CodeAt;
    Tick(p, g, s0, n, s, k);
    t := s.JumpTo(s.Get(rs));
  }

  lemma DoJalr(p: Program, g: Game, s0: Cpu, n: nat, s: Cpu, k: nat, rs: Reg) returns (t: Cpu)
    requires Reached(p, g, s0, n, s, k) && k + 1 < |p.ops| && p.ops[k] == Jalr(rs, RA)
    ensures Leaving(p, g, s0, n + 1, t, k + 1, s.Get(rs))
    ensures t == s.Set(RA, W(p.base + 4 * k + 8)).JumpTo(s.Get(rs))
  {
    hide Run, CodeAt;
    Tick(p, g, s0, n, s, k);
    t := s.Set(RA, W(s.pc + 8)).JumpTo(s.Get(rs));
  }

  lemma DoBranch(p: Program, g: Game, s0: Cpu, n: nat, s: Cpu, k: nat, onEqual: bool, rs: Reg, rt: Reg, name: string)
      returns (t: Cpu)
    requires Reached(p, g, s0, n, s, k) && k + 1 < |p.ops| && p.ops[k] == Branch(onEqual, rs, rt, name)
    ensures name in p.labels && t.regs == s.regs && t.mem == s.mem
    ensures Leaving(p, g, s0, n + 1, t, k + 1,
                    W(if (s.Get(rs) == s.Get(rt)) == onEqual then p.labels[name] else p.base + 4 * k + 8))
  {
    hide Run, CodeAt;
    Tick(p, g, s0, n, s, k);
    t := if (s.Get(rs) == s.Get(rt)) == onEqual then s.JumpTo(p.labels[name]) else s.Next();
  }

  /** The delay slots of the trampolines hold a nop. */
  lemma DoSlot(p: Program, g: Game, s0: Cpu, n: nat, s: Cpu, k: nat, target: Word) returns (t: Cpu)
    requires Leaving(p, g, s0, n, s, k, target) && p.ops[k] == Nop
    ensures Run(g, s0, n + 1) == Some(t) && t.regs == s.regs && t.mem == s.mem
    ensures t.pc == target && t.npc == W(target + 4) && p.Sound() && p.LoadedIn(t.mem)
  {
    hide Run, CodeAt;
    Tick(p, g, s0, n, s, k);
    t := s.Next();
  }

  /** A branch that lands inside the program, its delay slot done. */
  lemma Landed(p: Program, g: Game, s0: Cpu, n: nat, s: Cpu, k: nat)
    requires p.Sound() && p.LoadedIn(s.mem) && k < |p.ops| && Run(g, s0, n) == Some(s)
    requires s.pc == p.base + 4 * k && s.npc == W(s.pc + 4)
    requires g.entry < p.base || p.End() <= g.entry
    ensures Reached(p, g, s0, n, s, k)
  {}

  /** Jump to a game function with ra and the arguments as they are. */
  function TailCall(target: nat): (ops: seq<Op>)
    ensures |ops| == 4
  {
    [Imm(LUI, T9, ZERO, target / 0x1_0000 % 0x1_0000), Imm(ORI, T9, T9, target % 0x1_0000), Jr(T9), Nop]
  }

  /** Call a game function; it returns behind the nop. */
  function Call(target: nat): (ops: seq<Op>)
    ensures |ops| == 4
  {
    [Imm(LUI, T9, ZERO, target / 0x1_0000 % 0x1_0000), Imm(ORI, T9, T9, target % 0x1_0000), Jalr(T9, RA), Nop]
  }

  method EmitTailCall(a: Assembler, target: nat)
    requires a.Valid()
    modifies a
    ensures a.Valid() && a.labels == old(a.labels) && a.ops == old(a.ops) + TailCall(target)
  {
    hide Consistent;
    a.EmitOk(Imm(LUI, T9, ZERO, target / 0x1_0000 % 0x1_0000));
    a.EmitOk(Imm(ORI, T9, T9, target % 0x1_0000));
    a.EmitOk(Jr(T9));
    a.EmitOk(Nop);
  }

  method EmitCall(a: Assembler, target: nat)
    requires a.Valid()
    modifies a
    ensures a.Valid() && a.labels == old(a.labels) && a.ops == old(a.ops) + Call(target)
  {
    hide Consistent;
    a.EmitOk(Imm(LUI, T9, ZERO, target / 0x1_0000 % 0x1_0000));
    a.EmitOk(Imm(ORI, T9, T9, target % 0x1_0000));
    a.EmitOk(Jalr(T9, RA));
    a.EmitOk(Nop);
  }

  /** lui, ori, jr, nop: control arrives at the target with only t9 changed. */
  lemma RunTailCall(p: Program, g: Game, s0: Cpu, n: nat, s: Cpu, k: nat, target: Word) returns (t: Cpu)
    requires Reached(p, g, s0, n, s, k)
    requires SectionAt(p, k, TailCall(target))
    ensures Run(g, s0, n + 4) == Some(t) && t.pc == target && t.npc == W(target + 4)
    ensures t.mem == s.mem && forall r: Reg :: r != T9 ==> t.Get(r) == s.Get(r)
    ensures p.Sound() && p.LoadedIn(t.mem)
  {
    hide Reached, Run, CodeAt, Linked, W, SectionAt;
    Listing(p, k, TailCall(target));
    var s1 := DoLui(p, g, s0, n, s, k, T9, target / 0x1_0000 % 0x1_0000);
    var s2 := DoOri(p, g, s0, n + 1, s1, k + 1, T9, T9, target % 0x1_0000);
    var s3 := DoJr(p, g, s0, n + 2, s2, k + 2, T9);
    t := DoSlot(p, g, s0, n + 3, s3, k + 3, target);
  }

  /** lui, ori, jalr, nop: the call returns to the instruction after the nop. */
  lemma RunCall(p: Program, g: Game, s0: Cpu, n: nat, s: Cpu, k: nat, target: Word) returns (t: Cpu)
    requires Reached(p, g, s0, n, s, k) && p.base + 4 * |p.ops| < 0x1_0000_0000
    requires SectionAt(p, k, Call(target))
    ensures Run(g, s0, n + 4) == Some(t) && t.pc == target && t.npc == W(target + 4)
    ensures t.Get(RA) == p.base + 4 * k + 16
    ensures t.mem == s.mem && forall r: Reg :: r != T9 && r != RA ==> t.Get(r) == s.Get(r)
    ensures p.Sound() && p.LoadedIn(t.mem)
  {
    hide Reached, Run, CodeAt, Linked, W, SectionAt;
    Listing(p, k, Call(target));
    var s1 := DoLui(p, g, s0, n, s, k, T9, target / 0x1_0000 % 0x1_0000);
    var s2 := DoOri(p, g, s0, n + 1, s1, k + 1, T9, T9, target % 0x1_0000);
    var s3 := DoJalr(p, g, s0, n + 2, s2, k + 2, T9);
    t := DoSlot(p, g, s0, n + 3, s3, k + 3, target);
  }

  // ---- The calling convention ---------------------------------------------

  /** From this call s the function came back as t: at ra, with sp, gp, fp and the
      s-registers kept, and without writing to the caller's frame of the given size
      above sp or to the trampoline's code. */
  ghost predicate AbiReturn(s: Cpu, t: Cpu, frame: nat, p: Program) {
    && t.pc == s.Get(RA) && t.npc == W(s.Get(RA) + 4)
    && (forall r: Reg :: S0 <= r <= S7 || r in {GP, SP, FP} ==> t.Get(r) == s.Get(r))
    && SameWithin(s.mem, t.mem, s.Get(SP), s.Get(SP) + frame)
    && SameWithin(s.mem, t.mem, p.base, p.End())
  }

  /** Back at the caller of s with its sp and ra, and with everything else as the
      called function left it in r. */
  ghost predicate Resumed(s: Cpu, r: Cpu, f: Cpu) {
    && f.pc == s.Get(RA) && f.npc == W(s.Get(RA) + 4)
    && f.mem == r.mem && f.Get(SP) == s.Get(SP) && f.Get(RA) == s.Get(RA)
    && (forall q: Reg :: q != SP && q != RA ==> f.Get(q) == r.Get(q))
    && (forall q: Reg :: S0 <= q <= S7 || q in {GP, FP} ==> f.Get(q) == s.Get(q))
  }

  /** Running on from a state that was reached. */
  lemma {:induction false} RunOn(g: Game, s0: Cpu, n: nat, s: Cpu, m: nat)
    requires Run(g, s0, n) == Some(s)
    ensures Run(g, s0, n + m) == Run(g, s, m)
  {
    hide Step;
    if m > 0 {
      RunOn(g, s0, n, s, m - 1);
    }
  }

  /** Control comes back from a call to instruction k, m steps later. */
  lemma ReturnedAfter(p: Program, g: Game, s0: Cpu, n: nat, s: Cpu, m: nat, t: Cpu, k: nat, frame: nat)
    requires Run(g, s0, n) == Some(s) && Run(g, s, m) == Some(t) && AbiReturn(s, t, frame, p)
    requires p.Sound() && p.LoadedIn(s.mem) && (g.entry < p.base || p.End() <= g.entry)
    requires k < |p.ops| && s.Get(RA) == p.base + 4 * k
    ensures Reached(p, g, s0, n + m, t, k)
  {
    hide Linked, Run;
    RunOn(g, s0, n, s, m);
    CodeKept(s.mem, t.mem, p.base, Linked(p.ops, p.base, p.labels));
  }

  /** Control comes back from the game function to instruction k. */
  lemma Returned(p: Program, g: Game, s0: Cpu, n: nat, s: Cpu, k: nat, frame: nat)
    requires Run(g, s0, n) == Some(s) && s.pc == g.entry && AbiReturn(s, g.body(s), frame, p)
    requires p.Sound() && p.LoadedIn(s.mem) && (g.entry < p.base || p.End() <= g.entry)
    requires k < |p.ops| && s.Get(RA) == p.base + 4 * k
    ensures Reached(p, g, s0, n + 1, g.body(s), k)
  {
    hide Linked, CodeAt, AbiReturn, Program.Sound;
    assert Run(g, s, 0) == Some(s) && Step(g, s) == Some(g.body(s));
    assert Run(g, s, 1) == Some(g.body(s));
    ReturnedAfter(p, g, s0, n, s, 1, g.body(s), k, frame);
  }
}
