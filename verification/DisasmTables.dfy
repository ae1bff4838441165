/** The mnemonic tables of tools/mips_disasm.py, and the decoder in their terms: what
    each named instruction shows of its fields. */
module DisasmTables {
  import opened Bits
  import opened MipsDisasm
  import Asm = MipsAssembler
  import opened Options
  import BranchComment
  import Strings = Text

  datatype Mnemonic =
    | Beq | Bne | Blez | Bgtz | Addi | Addiu | Slti | Sltiu | Andi | Ori | Xori | Beql | Bnel | Daddi | Daddiu | Lb
    | Lh | Lwl | Lw | Lbu | Lhu | Lwr | Lwu | Sb | Sh | Swl | Sw | Ld | Sd | Lq | Sq | Lwc1 | Swc1 | Sll | Srl | Sra
    | Sllv | Srlv | Srav | Jr | Jalr | Movz | Movn | Syscall | Break | Mfhi | Mthi | Mflo | Mtlo | Mult | Multu | Div
    | Divu | Add | Addu | Sub | Subu | And | Or | Xor | Nor | Slt | Sltu | Dadd | Daddu | Dsub | Dsubu | Dsll | Dsrl
    | Dsra | Dsll32 | Dsrl32 | Dsra32 | Bltz | Bgez | Bltzal | Bgezal

  function IOps(op: nat): Option<Mnemonic> {
    match op
    case 0x04 => Some(Beq) case 0x05 => Some(Bne) case 0x06 => Some(Blez) case 0x07 => Some(Bgtz)
    case 0x08 => Some(Addi) case 0x09 => Some(Addiu) case 0x0A => Some(Slti) case 0x0B => Some(Sltiu)
    case 0x0C => Some(Andi) case 0x0D => Some(Ori) case 0x0E => Some(Xori) case 0x14 => Some(Beql)
    case 0x15 => Some(Bnel) case 0x18 => Some(Daddi) case 0x19 => Some(Daddiu) case 0x20 => Some(Lb)
    case 0x21 => Some(Lh) case 0x22 => Some(Lwl) case 0x23 => Some(Lw) case 0x24 => Some(Lbu) case 0x25 => Some(Lhu)
    case 0x26 => Some(Lwr) case 0x27 => Some(Lwu) case 0x28 => Some(Sb) case 0x29 => Some(Sh) case 0x2A => Some(Swl)
    case 0x2B => Some(Sw) case 0x37 => Some(Ld) case 0x3F => Some(Sd) case 0x1E => Some(Lq) case 0x1F => Some(Sq)
    case 0x31 => Some(Lwc1) case 0x39 => Some(Swc1)
    case _ => None
  }

  function RFuncs(fn: nat): Option<Mnemonic> {
    match fn
    case 0x00 => Some(Sll) case 0x02 => Some(Srl) case 0x03 => Some(Sra) case 0x04 => Some(Sllv)
    case 0x06 => Some(Srlv) case 0x07 => Some(Srav) case 0x08 => Some(Jr) case 0x09 => Some(Jalr)
    case 0x0A => Some(Movz) case 0x0B => Some(Movn) case 0x0C => Some(Syscall) case 0x0D => Some(Break)
    case 0x10 => Some(Mfhi) case 0x11 => Some(Mthi) case 0x12 => Some(Mflo) case 0x13 => Some(Mtlo)
    case 0x18 => Some(Mult) case 0x19 => Some(Multu) case 0x1A => Some(Div) case 0x1B => Some(Divu)
    case 0x20 => Some(Add) case 0x21 => Some(Addu) case 0x22 => Some(Sub) case 0x23 => Some(Subu)
    case 0x24 => Some(And) case 0x25 => Some(Or) case 0x26 => Some(Xor) case 0x27 => Some(Nor) case 0x2A => Some(Slt)
    case 0x2B => Some(Sltu) case 0x2C => Some(Dadd) case 0x2D => Some(Daddu) case 0x2E => Some(Dsub)
    case 0x2F => Some(Dsubu) case 0x38 => Some(Dsll) case 0x3A => Some(Dsrl) case 0x3B => Some(Dsra)
    case 0x3C => Some(Dsll32) case 0x3E => Some(Dsrl32) case 0x3F => Some(Dsra32)
    case _ => None
  }

  function RegImms(code: nat): Option<Mnemonic> {
    match code
    case 0x00 => Some(Bltz) case 0x01 => Some(Bgez) case 0x10 => Some(Bltzal) case 0x11 => Some(Bgezal)
    case _ => None
  }

  // ---- The decoder by format ---------------------------------------------

  /** What the decoder shows of an instruction in the immediate format. */
  function ShownI(pc: nat, m: Mnemonic, op: nat, rs: Reg, rt: Reg, imm: nat): Instr
    requires imm < 0x1_0000
  {
    var signed := if imm < 0x8000 then imm else imm - 0x1_0000;
    if m in {Beq, Bne, Beql, Bnel} then IBranch(op, rs, rt, pc + 4 + 4 * signed)
    else if m in {Blez, Bgtz} then IBranchZ(op, rs, pc + 4 + 4 * signed)
    else if m in {Addi, Addiu, Slti, Sltiu, Daddi, Daddiu} then IImmSigned(op, rt, rs, signed)
    else if m in {Andi, Ori, Xori} then IImmUnsigned(op, rt, rs, imm)
    else IMem(op, rt, rs, signed)
  }

  /** The decoder's groups of opcodes are those of the named instructions. */
  lemma OpcodeGroups(op: nat)
    ensures KnownIOp(op) <==> IOps(op).Some?
    ensures op in {0x04, 0x05, 0x14, 0x15} <==> IOps(op).Some? && IOps(op).value in {Beq, Bne, Beql, Bnel}
    ensures op in {0x06, 0x07} <==> IOps(op).Some? && IOps(op).value in {Blez, Bgtz}
    ensures op in {0x08, 0x09, 0x0A, 0x0B, 0x18, 0x19}
            <==> IOps(op).Some? && IOps(op).value in {Addi, Addiu, Slti, Sltiu, Daddi, Daddiu}
    ensures op in {0x0C, 0x0D, 0x0E} <==> IOps(op).Some? && IOps(op).value in {Andi, Ori, Xori}
    ensures op == 0x0F ==> IOps(op).None?
  {}

  lemma ShownByOpcode(pc: nat, w: nat, op: nat, rs: Reg, rt: Reg, imm: nat)
    requires w != 0 && w / 0x400_0000 == op && w / 0x20_0000 % 32 == rs && w / 0x1_0000 % 32 == rt
    requires w % 0x1_0000 == imm
    requires 4 <= op < 64
    ensures Decode(pc, w)
            == if op == 0x0F then ILui(rt, imm)
               else match IOps(op) case Some(m) => ShownI(pc, m, op, rs, rt, imm) case None => IWord(w)
  {
    hide IOps, KnownIOp;
    OpcodeGroups(op);
  }

  /** The immediate format: opcode, two registers, sixteen bits. */
  lemma DecodeIFormat(pc: nat, op: nat, rs: Reg, rt: Reg, imm: nat)
    requires 4 <= op < 64 && imm < 0x1_0000
    ensures var w := op * 0x400_0000 + rs * 0x20_0000 + rt * 0x1_0000 + imm;
            Decode(pc, w)
            == if op == 0x0F then ILui(rt, imm)
               else match IOps(op) case Some(m) => ShownI(pc, m, op, rs, rt, imm) case None => IWord(w)
  {
    hide Decode, IOps, ShownI;
    FieldsOf(op, rs, rt, imm);
    ShownByOpcode(pc, op * 0x400_0000 + rs * 0x20_0000 + rt * 0x1_0000 + imm, op, rs, rt, imm);
  }

  lemma FieldsOf(op: nat, rs: Reg, rt: Reg, imm: nat)
    requires op < 64 && imm < 0x1_0000
    ensures var w := op * 0x400_0000 + rs * 0x20_0000 + rt * 0x1_0000 + imm;
            w / 0x400_0000 == op && w / 0x20_0000 % 32 == rs && w / 0x1_0000 % 32 == rt && w % 0x1_0000 == imm
  {
    var w := op * 0x400_0000 + rs * 0x20_0000 + rt * 0x1_0000 + imm;
    DivModUnique(w, 0x400_0000, op, rs * 0x20_0000 + rt * 0x1_0000 + imm);
    DivModUnique(w, 0x20_0000, op * 32 + rs, rt * 0x1_0000 + imm);
    DivModUnique(w, 0x1_0000, (op * 32 + rs) * 32 + rt, imm);
    DivModUnique(op * 32 + rs, 32, op, rs);
    DivModUnique((op * 32 + rs) * 32 + rt, 32, op * 32 + rs, rt);
  }

  /** Opcode 1: the rt field names the branch. */
  lemma DecodeRegImm(pc: nat, rs: Reg, code: Reg, imm: nat)
    requires imm < 0x1_0000
    ensures var w := 0x400_0000 + rs * 0x20_0000 + code * 0x1_0000 + imm;
            Decode(pc, w)
            == if RegImms(code).Some? then IRegImm(code, rs, pc + 4 + 4 * if imm < 0x8000 then imm else imm - 0x1_0000)
               else IWord(w)
  {
    FieldsOf(1, rs, code, imm);
  }

  /** The jump format: 26 bits of a word address in the segment of the delay slot. */
  lemma DecodeJFormat(pc: nat, op: nat, field: nat)
    requires (op == 2 || op == 3) && field < 0x400_0000 && pc + 4 < 0x1_0000_0000
    ensures Decode(pc, op * 0x400_0000 + field) == IJump(op, (pc + 4) / 0x1000_0000 * 0x1000_0000 + 4 * field)
  {
    DivModUnique(op * 0x400_0000 + field, 0x400_0000, op, field);
  }

  /** What the decoder shows of an instruction in the register format. */
  function ShownR(m: Mnemonic, fn: nat, rs: Reg, rt: Reg, rd: Reg, sa: nat): Instr {
    if m in {Sll, Srl, Sra, Dsll, Dsrl, Dsra, Dsll32, Dsrl32, Dsra32} then IShift(fn, rd, rt, sa)
    else if m == Jr then IJr(rs)
    else if m == Jalr then IJalr(rd, rs)
    else if m in {Mfhi, Mflo} then IMoveFrom(fn, rd)
    else if m in {Mthi, Mtlo} then IMoveTo(fn, rs)
    else if m in {Mult, Multu, Div, Divu} then IMulDiv(fn, rs, rt)
    else if m in {Syscall, Break} then ITrap(fn)
    else IAlu(fn, rd, rs, rt)
  }

  /** The decoder's groups of function codes are those of the named instructions. */
  lemma FunctionGroups(fn: nat)
    ensures KnownFunct(fn) <==> RFuncs(fn).Some?
    ensures fn in {0x00, 0x02, 0x03, 0x38, 0x3A, 0x3B, 0x3C, 0x3E, 0x3F}
            <==> RFuncs(fn).Some? && RFuncs(fn).value in {Sll, Srl, Sra, Dsll, Dsrl, Dsra, Dsll32, Dsrl32, Dsra32}
    ensures fn == 0x08 <==> RFuncs(fn) == Some(Jr)
    ensures fn == 0x09 <==> RFuncs(fn) == Some(Jalr)
  {}

  lemma MoveGroups(fn: nat)
    ensures fn in {0x10, 0x12} <==> RFuncs(fn).Some? && RFuncs(fn).value in {Mfhi, Mflo}
    ensures fn in {0x11, 0x13} <==> RFuncs(fn).Some? && RFuncs(fn).value in {Mthi, Mtlo}
    ensures fn in {0x18, 0x19, 0x1A, 0x1B} <==> RFuncs(fn).Some? && RFuncs(fn).value in {Mult, Multu, Div, Divu}
    ensures fn in {0x0C, 0x0D} <==> RFuncs(fn).Some? && RFuncs(fn).value in {Syscall, Break}
  {}

  lemma ShownByFunction(w: nat, rs: Reg, rt: Reg, rd: Reg, sa: nat, fn: nat)
    requires w / 0x800 % 32 == rd && w / 0x40 % 32 == sa && w % 0x40 == fn
    ensures DecodeR(w, rs, rt)
            == match RFuncs(fn) case Some(m) => ShownR(m, fn, rs, rt, rd, sa) case None => IWord(w)
  {
    hide RFuncs, KnownFunct;
    FunctionGroups(fn);
    MoveGroups(fn);
  }

  /** The register format: three registers, a shift amount and a function code. */
  lemma DecodeRFormat(pc: nat, rs: Reg, rt: Reg, rd: Reg, sa: nat, fn: nat)
    requires sa < 32 && fn < 64
    ensures var w := rs * 0x20_0000 + rt * 0x1_0000 + rd * 0x800 + sa * 0x40 + fn;
            Decode(pc, w)
            == if w == 0 then INop
               else match RFuncs(fn) case Some(m) => ShownR(m, fn, rs, rt, rd, sa) case None => IWord(w)
  {
    hide RFuncs, ShownR, DecodeR;
    var low := rd * 0x800 + sa * 0x40 + fn;
    var w := rs * 0x20_0000 + rt * 0x1_0000 + low;
    FieldsOf(0, rs, rt, low);
    LowFields(rs, rt, rd, sa, fn);
    ShownByFunction(w, rs, rt, rd, sa, fn);
  }

  lemma LowFields(rs: Reg, rt: Reg, rd: Reg, sa: nat, fn: nat)
    requires sa < 32 && fn < 64
    ensures var w := rs * 0x20_0000 + rt * 0x1_0000 + rd * 0x800 + sa * 0x40 + fn;
            w / 0x800 % 32 == rd && w / 0x40 % 32 == sa && w % 0x40 == fn
  {
    var w := rs * 0x20_0000 + rt * 0x1_0000 + rd * 0x800 + sa * 0x40 + fn;
    DivModUnique(w, 0x800, (rs * 32 + rt) * 32 + rd, sa * 0x40 + fn);
    DivModUnique(w, 0x40, ((rs * 32 + rt) * 32 + rd) * 32 + sa, fn);
    DivModUnique((rs * 32 + rt) * 32 + rd, 32, rs * 32 + rt, rd);
    DivModUnique(((rs * 32 + rt) * 32 + rd) * 32 + sa, 32, (rs * 32 + rt) * 32 + rd, sa);
  }

  // ---- Assembler and decoder use the same codes --------------------------

  /** Every emitter's code is the one under which the decoder knows its mnemonic. */
  lemma EmittersAgree()
    ensures RFuncs(Asm.R3Funct.ADD.Code()) == Some(Add) && RFuncs(Asm.R3Funct.ADDU.Code()) == Some(Addu)
    ensures RFuncs(Asm.R3Funct.SUBU.Code()) == Some(Subu) && RFuncs(Asm.R3Funct.AND.Code()) == Some(And)
    ensures RFuncs(Asm.R3Funct.OR.Code()) == Some(Or) && RFuncs(Asm.R3Funct.SLT.Code()) == Some(Slt)
    ensures IOps(Asm.ImmOp.ADDIU.Code()) == Some(Addiu) && IOps(Asm.ImmOp.ORI.Code()) == Some(Ori)
    ensures IOps(Asm.ImmOp.ANDI.Code()) == Some(Andi) && IOps(Asm.ImmOp.LW.Code()) == Some(Lw)
    ensures IOps(Asm.ImmOp.SW.Code()) == Some(Sw) && IOps(Asm.ImmOp.LB.Code()) == Some(Lb)
    ensures IOps(Asm.ImmOp.LBU.Code()) == Some(Lbu) && IOps(Asm.ImmOp.SB.Code()) == Some(Sb)
    ensures Asm.ImmOp.LUI.Code() == 0x0F
    ensures IOps(Asm.BranchCode(true)) == Some(Beq) && IOps(Asm.BranchCode(false)) == Some(Bne)
    ensures Asm.JumpCode(false) == 0x02 && Asm.JumpCode(true) == 0x03
  {}

  const REG: seq<string> := [
    "zero", "at", "v0", "v1", "a0", "a1", "a2", "a3", "t0", "t1", "t2", "t3", "t4", "t5", "t6", "t7",
    "s0", "s1", "s2", "s3", "s4", "s5", "s6", "s7", "t8", "t9", "k0", "k1", "gp", "sp", "fp", "ra"]

  /** Assembler and decoder call the registers the same, but for the case. */
  lemma RegistersAgree(r: Reg)
    ensures |REG| == 32 && Strings.Lower(BranchComment.Name(r)) == REG[r]
  {
    assert |REG| == 32;
  }
}
