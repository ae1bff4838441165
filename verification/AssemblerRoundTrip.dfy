/** Decoding linked words gives back the emitter calls: the assembler
    (tools/mips_assembler.py) against the decoder (tools/mips_disasm.py). */
module AssemblerRoundTrip {
  import opened Bits
  import opened MipsDisasm
  import opened MipsAssembler

  /** What an emitter call stands for: its operation, registers and 16-bit
      immediate, with branches and jumps going to their label. */
  function Meaning(op: Op, labels: map<string, nat>): Instr
    requires NeedsLabel(op) ==> op.name in labels
  {
    match op
    case Nop => INop
    case R3(f, rd, rs, rt) => IAlu(f.Code(), rd, rs, rt)
    case Sll(rd, rt, shamt) =>
      if rd == ZERO && rt == ZERO && shamt == 0 then INop else IShift(0x00, rd, rt, shamt)
    case Jr(rs) => IJr(rs)
    case Jalr(rs, rd) => IJalr(rd, rs)
    case Mflo(rd) => IMoveFrom(0x12, rd)
    case Mfhi(rd) => IMoveFrom(0x10, rd)
    case Mult(rs, rt) => IMulDiv(0x18, rs, rt)
    case Imm(o, rt, rs, imm) =>
      (match o
       case ADDIU => IImmSigned(0x09, rt, rs, S16(imm % 0x1_0000))
       case LUI => ILui(rt, imm % 0x1_0000)
       case ORI => IImmUnsigned(0x0D, rt, rs, imm % 0x1_0000)
       case ANDI => IImmUnsigned(0x0C, rt, rs, imm % 0x1_0000)
       case _ => IMem(o.Code(), rt, rs, S16(imm % 0x1_0000)))
    case Branch(onEqual, rs, rt, name) => IBranch(BranchCode(onEqual), rs, rt, labels[name])
    case Jump(link, name) => IJump(JumpCode(link), labels[name])
  }

  /** The fields hold what the call asks for: a 5-bit shift amount, a branch
      within 2^15 instructions, a jump within the delay slot's 256 MB segment.
      The assembler checks none of these. */
  predicate Encodable(op: Op, addr: nat, labels: map<string, nat>)
    requires NeedsLabel(op) ==> op.name in labels
  {
    match op
    case Sll(_, _, shamt) => shamt < 32
    case Branch(_, _, _, name) => -0x2_0000 <= labels[name] - addr - 4 < 0x2_0000
    case Jump(_, name) => labels[name] % 4 == 0 && labels[name] / 0x1000_0000 == (addr + 4) / 0x1000_0000
    case _ => true
  }

  /** Or-ing a field below the bits already placed. */
  lemma OrField(high: nat, a: nat, field: nat, k: nat, p: nat)
    requires p == Pow2(k) && high == a * p && field < p
    ensures BitOr(high, field) == high + field
  {
    OrDisjoint(a, field, k);
  }

  lemma EncodeISum(code: nat, rt: Reg, rs: Reg, imm: int)
    ensures EncodeI(code, rt, rs, imm) == code * 0x400_0000 + rs * 0x20_0000 + rt * 0x1_0000 + imm % 0x1_0000
  {
    Pow2Values();
    OrField(code * 0x400_0000, code, rs * 0x20_0000, 26, 0x400_0000);
    OrField(code * 0x400_0000 + rs * 0x20_0000, code * 32 + rs, rt * 0x1_0000, 21, 0x20_0000);
    OrField(code * 0x400_0000 + rs * 0x20_0000 + rt * 0x1_0000, (code * 32 + rs) * 32 + rt,
            imm % 0x1_0000, 16, 0x1_0000);
  }

  lemma EncodeJSum(code: nat, target: nat)
    ensures EncodeJ(code, target) == code * 0x400_0000 + target / 4 % 0x400_0000
  {
    Pow2Values();
    OrField(code * 0x400_0000, code, target / 4 % 0x400_0000, 26, 0x400_0000);
  }

  lemma EncodeRSum(code: nat, rd: Reg, rs: Reg, rt: Reg, shamt: nat)
    requires code < 0x40 && shamt < 32
    ensures EncodeR(code, rd, rs, rt, shamt) == rs * 0x20_0000 + rt * 0x1_0000 + rd * 0x800 + shamt * 0x40 + code
  {
    hide BitOr;
    Pow2Values();
    var w1 := rs * 0x20_0000 + rt * 0x1_0000;
    OrField(rs * 0x20_0000, rs, rt * 0x1_0000, 21, 0x20_0000);
    OrField(w1, rs * 32 + rt, rd * 0x800, 16, 0x1_0000);
    OrField(w1 + rd * 0x800, (rs * 32 + rt) * 32 + rd, shamt * 0x40, 11, 0x800);
    OrField(w1 + rd * 0x800 + shamt * 0x40, ((rs * 32 + rt) * 32 + rd) * 32 + shamt, code, 6, 0x40);
  }

  lemma DecodeRFields(code: nat, rd: Reg, rs: Reg, rt: Reg, shamt: nat)
    requires code < 0x40 && shamt < 32
    ensures var w := EncodeR(code, rd, rs, rt, shamt);
            && w < 0x400_0000 && w / 0x20_0000 % 32 == rs && w / 0x1_0000 % 32 == rt
            && w / 0x800 % 32 == rd && w / 0x40 % 32 == shamt && w % 0x40 == code
  {
    EncodeRSum(code, rd, rs, rt, shamt);
    var w := EncodeR(code, rd, rs, rt, shamt);
    DivModUnique(w, 0x20_0000, rs, rt * 0x1_0000 + rd * 0x800 + shamt * 0x40 + code);
    DivModUnique(w, 0x1_0000, rs * 32 + rt, rd * 0x800 + shamt * 0x40 + code);
    DivModUnique(w, 0x800, (rs * 32 + rt) * 32 + rd, shamt * 0x40 + code);
    DivModUnique(w, 0x40, ((rs * 32 + rt) * 32 + rd) * 32 + shamt, code);
    DivModUnique(rs * 32 + rt, 32, rs, rt);
    DivModUnique((rs * 32 + rt) * 32 + rd, 32, rs * 32 + rt, rd);
    DivModUnique(((rs * 32 + rt) * 32 + rd) * 32 + shamt, 32, (rs * 32 + rt) * 32 + rd, shamt);
  }

  lemma DecodeIFields(code: nat, rt: Reg, rs: Reg, imm: int)
    requires 0 < code < 0x40
    ensures var w := EncodeI(code, rt, rs, imm);
            && 0 < w < 0x1_0000_0000 && w / 0x400_0000 == code
            && w / 0x20_0000 % 32 == rs && w / 0x1_0000 % 32 == rt && w % 0x1_0000 == imm % 0x1_0000
  {
    EncodeISum(code, rt, rs, imm);
    var w, field := EncodeI(code, rt, rs, imm), imm % 0x1_0000;
    DivModUnique(w, 0x400_0000, code, rs * 0x20_0000 + rt * 0x1_0000 + field);
    DivModUnique(w, 0x20_0000, code * 32 + rs, rt * 0x1_0000 + field);
    DivModUnique(w, 0x1_0000, (code * 32 + rs) * 32 + rt, field);
    DivModUnique(code * 32 + rs, 32, code, rs);
    DivModUnique((code * 32 + rs) * 32 + rt, 32, code * 32 + rs, rt);
  }

  lemma RoundTripR3(f: R3Funct, rd: Reg, rs: Reg, rt: Reg, addr: nat)
    ensures Decode(addr, EncodeR(f.Code(), rd, rs, rt, 0)) == IAlu(f.Code(), rd, rs, rt)
  {
    hide BitOr;
    DecodeRFields(f.Code(), rd, rs, rt, 0);
  }

  lemma RoundTripSll(rd: Reg, rt: Reg, shamt: nat, addr: nat)
    ensures Decode(addr, EncodeR(0x00, rd, ZERO, rt, shamt)) == Meaning(Sll(rd, rt, shamt), map[]) <==> shamt < 32
  {
    if shamt < 32 {
      hide BitOr;
      DecodeRFields(0x00, rd, ZERO, rt, shamt);
      EncodeRSum(0x00, rd, ZERO, rt, shamt);
    }
  }

  lemma RoundTripOneRegister(rd: Reg, rs: Reg, rt: Reg, addr: nat)
    ensures Decode(addr, EncodeR(0x08, ZERO, rs, ZERO, 0)) == IJr(rs)
    ensures Decode(addr, EncodeR(0x09, rd, rs, ZERO, 0)) == IJalr(rd, rs)
    ensures Decode(addr, EncodeR(0x12, rd, ZERO, ZERO, 0)) == IMoveFrom(0x12, rd)
    ensures Decode(addr, EncodeR(0x10, rd, ZERO, ZERO, 0)) == IMoveFrom(0x10, rd)
    ensures Decode(addr, EncodeR(0x18, ZERO, rs, rt, 0)) == IMulDiv(0x18, rs, rt)
  {
    hide BitOr;
    DecodeRFields(0x08, ZERO, rs, ZERO, 0);
    DecodeRFields(0x09, rd, rs, ZERO, 0);
    DecodeRFields(0x12, rd, ZERO, ZERO, 0);
    DecodeRFields(0x10, rd, ZERO, ZERO, 0);
    DecodeRFields(0x18, ZERO, rs, rt, 0);
  }

  lemma RoundTripImm(o: ImmOp, rt: Reg, rs: Reg, imm: int, addr: nat)
    ensures Decode(addr, EncodeI(o.Code(), rt, rs, imm)) == Meaning(Imm(o, rt, rs, imm), map[])
  {
    hide BitOr;
    DecodeIFields(o.Code(), rt, rs, imm);
  }

  lemma RoundTripBranch(onEqual: bool, rs: Reg, rt: Reg, target: nat, addr: nat)
    requires (target - addr) % 4 == 0
    ensures Decode(addr, EncodeI(BranchCode(onEqual), rt, rs, (target - addr - 4) / 4 % 0x1_0000))
            == IBranch(BranchCode(onEqual), rs, rt, target)
            <==> -0x2_0000 <= target - addr - 4 < 0x2_0000
  {
    hide BitOr;
    DecodeIFields(BranchCode(onEqual), rt, rs, (target - addr - 4) / 4 % 0x1_0000);
  }

  lemma RoundTripJump(link: bool, target: nat, addr: nat)
    requires addr + 4 < 0x1_0000_0000
    ensures Decode(addr, EncodeJ(JumpCode(link), target)) == IJump(JumpCode(link), target)
            <==> target % 4 == 0 && target / 0x1000_0000 == (addr + 4) / 0x1000_0000
  {
    hide BitOr;
    EncodeJSum(JumpCode(link), target);
    var w := EncodeJ(JumpCode(link), target);
    DivModUnique(w, 0x400_0000, JumpCode(link), target / 4 % 0x400_0000);
  }

  /** One instruction: decoding inverts linking exactly when it is encodable. */
  lemma RoundTripOp(op: Op, addr: nat, labels: map<string, nat>)
    requires addr + 4 < 0x1_0000_0000
    requires NeedsLabel(op) ==> op.name in labels && (labels[op.name] - addr) % 4 == 0
    ensures Decode(addr, LinkedWord(op, addr, labels)) == Meaning(op, labels) <==> Encodable(op, addr, labels)
  {
    hide BitOr, EncodeR, EncodeI, EncodeJ, Decode;
    match op
    case Nop => assert Decode(addr, 0) == INop by { DecodeZero(addr); }
    case R3(f, rd, rs, rt) => RoundTripR3(f, rd, rs, rt, addr);
    case Sll(rd, rt, shamt) => RoundTripSll(rd, rt, shamt, addr);
    case Jr(rs) => RoundTripOneRegister(ZERO, rs, ZERO, addr);
    case Jalr(rs, rd) => RoundTripOneRegister(rd, rs, ZERO, addr);
    case Mflo(rd) => RoundTripOneRegister(rd, ZERO, ZERO, addr);
    case Mfhi(rd) => RoundTripOneRegister(rd, ZERO, ZERO, addr);
    case Mult(rs, rt) => RoundTripOneRegister(ZERO, rs, rt, addr);
    case Imm(o, rt, rs, imm) => RoundTripImm(o, rt, rs, imm, addr);
    case Branch(onEqual, rs, rt, name) => RoundTripBranch(onEqual, rs, rt, labels[name], addr);
    case Jump(link, name) => RoundTripJump(link, labels[name], addr);
  }

  lemma DecodeZero(addr: nat)
    ensures Decode(addr, 0) == INop
  {}

  /** Whole programs, forwards and backwards references alike. */
  lemma LinkedDecodes(ops: seq<Op>, base: nat, labels: map<string, nat>, k: nat)
    requires k < |ops| && base + 4 * k + 4 < 0x1_0000_0000
    requires Resolvable(ops, labels) && PlacedLabels(labels, base)
    ensures Decode(base + 4 * k, Linked(ops, base, labels)[k]) == Meaning(ops[k], labels)
            <==> Encodable(ops[k], base + 4 * k, labels)
  {
    hide Decode, Meaning, Encodable;
    RoundTripOp(ops[k], base + 4 * k, labels);
  }

  /** Every linked word fits 32 bits once shift amounts do fit their field. */
  lemma LinkedWordFits(op: Op, addr: nat, labels: map<string, nat>)
    requires NeedsLabel(op) ==> op.name in labels
    requires op.Sll? ==> op.shamt < 32
    ensures LinkedWord(op, addr, labels) < 0x1_0000_0000
  {
    hide BitOr, EncodeR, EncodeI, EncodeJ;
    match op
    case Nop =>
    case R3(f, rd, rs, rt) => DecodeRFields(f.Code(), rd, rs, rt, 0);
    case Sll(rd, rt, shamt) => DecodeRFields(0x00, rd, ZERO, rt, shamt);
    case Jr(rs) => DecodeRFields(0x08, ZERO, rs, ZERO, 0);
    case Jalr(rs, rd) => DecodeRFields(0x09, rd, rs, ZERO, 0);
    case Mflo(rd) => DecodeRFields(0x12, rd, ZERO, ZERO, 0);
    case Mfhi(rd) => DecodeRFields(0x10, rd, ZERO, ZERO, 0);
    case Mult(rs, rt) => DecodeRFields(0x18, ZERO, rs, rt, 0);
    case Imm(o, rt, rs, imm) => DecodeIFields(o.Code(), rt, rs, imm);
    case Branch(onEqual, rs, rt, name) =>
      DecodeIFields(BranchCode(onEqual), rt, rs, (labels[name] - addr - 4) / 4 % 0x1_0000);
    case Jump(link, name) => EncodeJSum(JumpCode(link), labels[name]);
  }

  predicate ShiftsFit(ops: seq<Op>) {
    forall k :: 0 <= k < |ops| && ops[k].Sll? ==> ops[k].shamt < 32
  }

  lemma LinkedFits(ops: seq<Op>, base: nat, labels: map<string, nat>)
    requires Resolvable(ops, labels) && ShiftsFit(ops)
    ensures WordsFit(Linked(ops, base, labels))
  {
    hide LinkedWord;
    forall k | 0 <= k < |ops|
      ensures Linked(ops, base, labels)[k] < 0x1_0000_0000
    {
      LinkedWordFits(ops[k], base + 4 * k, labels);
    }
  }
}
