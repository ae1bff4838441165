/** The decoder of tools/mips_disasm.py.  Where the source prints text, the
    model returns an instruction value; a mnemonic is the number of its table
    row (opcode, function code or REGIMM code). */
module MipsDisasm {

  type Reg = r: nat | r < 32

  const ZERO: Reg := 0
  const AT: Reg := 1
  const V0: Reg := 2
  const A0: Reg := 4
  const A1: Reg := 5
  const A2: Reg := 6
  const A3: Reg := 7
  const T0: Reg := 8
  const T1: Reg := 9
  const T2: Reg := 10
  const T3: Reg := 11
  const T4: Reg := 12
  const T5: Reg := 13
  const T6: Reg := 14
  const T7: Reg := 15
  const S0: Reg := 16
  const S1: Reg := 17
  const S3: Reg := 19
  const S7: Reg := 23
  const T8: Reg := 24
  const T9: Reg := 25
  const GP: Reg := 28
  const SP: Reg := 29
  const FP: Reg := 30
  const RA: Reg := 31

  datatype Instr =
    | INop
    | IShift(fn: nat, rd: Reg, rt: Reg, sa: nat)
    | IJr(rs: Reg)
    | IJalr(rd: Reg, rs: Reg)
    | IMoveFrom(fn: nat, rd: Reg)
    | IMoveTo(fn: nat, rs: Reg)
    | IMulDiv(fn: nat, rs: Reg, rt: Reg)
    | ITrap(fn: nat)
    | IAlu(fn: nat, rd: Reg, rs: Reg, rt: Reg)
    | IRegImm(code: nat, rs: Reg, target: int)
    | IJump(op: nat, target: int)
    | ILui(rt: Reg, imm: nat)
    | IBranch(op: nat, rs: Reg, rt: Reg, target: int)
    | IBranchZ(op: nat, rs: Reg, target: int)
    | IImmSigned(op: nat, rt: Reg, rs: Reg, simm: int)
    | IImmUnsigned(op: nat, rt: Reg, rs: Reg, imm: nat)
    | IMem(op: nat, rt: Reg, base: Reg, offset: int)
    | IWord(w: nat)

  /** Rows of the I_OPS table. */
  predicate KnownIOp(op: nat) {
    op in {0x04, 0x05, 0x06, 0x07, 0x08, 0x09, 0x0A, 0x0B, 0x0C, 0x0D, 0x0E, 0x14, 0x15, 0x18, 0x19,
           0x20, 0x21, 0x22, 0x23, 0x24, 0x25, 0x26, 0x27, 0x28, 0x29, 0x2A, 0x2B,
           0x37, 0x3F, 0x1E, 0x1F, 0x31, 0x39}
  }

  /** Rows of the R_FUNCS table. */
  predicate KnownFunct(fn: nat) {
    fn in {0x00, 0x02, 0x03, 0x04, 0x06, 0x07, 0x08, 0x09, 0x0A, 0x0B, 0x0C, 0x0D,
           0x10, 0x11, 0x12, 0x13, 0x18, 0x19, 0x1A, 0x1B,
           0x20, 0x21, 0x22, 0x23, 0x24, 0x25, 0x26, 0x27, 0x2A, 0x2B, 0x2C, 0x2D, 0x2E, 0x2F,
           0x38, 0x3A, 0x3B, 0x3C, 0x3E, 0x3F}
  }

  function S16(v: nat): (r: int)
    requires v < 0x1_0000
    ensures -0x8000 <= r < 0x8000 && r % 0x1_0000 == v
  {
    if v >= 0x8000 then v - 0x1_0000 else v
  }

  function Decode(pc: nat, w: nat): Instr {
    if w == 0 then INop
    else
      var op := w / 0x400_0000;
      var rs: Reg := w / 0x20_0000 % 32;
      var rt: Reg := w / 0x1_0000 % 32;
      var imm := w % 0x1_0000;
      if op == 0 then DecodeR(w, rs, rt)
      else if op == 0x01 then
        if rt in {0x00, 0x01, 0x10, 0x11} then IRegImm(rt, rs, BranchTarget(pc, imm)) else IWord(w)
      else if op == 0x02 || op == 0x03 then
        IJump(op, (pc + 4) / 0x1000_0000 % 16 * 0x1000_0000 + w % 0x400_0000 * 4)
      else if op == 0x0F then ILui(rt, imm)
      else if !KnownIOp(op) then IWord(w)
      else if op in {0x04, 0x05, 0x14, 0x15} then IBranch(op, rs, rt, BranchTarget(pc, imm))
      else if op in {0x06, 0x07} then IBranchZ(op, rs, BranchTarget(pc, imm))
      else if op in {0x08, 0x09, 0x0A, 0x0B, 0x18, 0x19} then IImmSigned(op, rt, rs, S16(imm))
      else if op in {0x0C, 0x0D, 0x0E} then IImmUnsigned(op, rt, rs, imm)
      else IMem(op, rt, rs, S16(imm))
  }

  function BranchTarget(pc: nat, imm: nat): int
    requires imm < 0x1_0000
  {
    pc + 4 + S16(imm) * 4
  }

  function DecodeR(w: nat, rs: Reg, rt: Reg): Instr {
    var rd: Reg := w / 0x800 % 32;
    var sa := w / 0x40 % 32;
    var fn := w % 0x40;
    if !KnownFunct(fn) then IWord(w)
    else if fn in {0x00, 0x02, 0x03, 0x38, 0x3A, 0x3B, 0x3C, 0x3E, 0x3F} then IShift(fn, rd, rt, sa)
    else if fn == 0x08 then IJr(rs)
    else if fn == 0x09 then IJalr(rd, rs)
    else if fn == 0x10 || fn == 0x12 then IMoveFrom(fn, rd)
    else if fn == 0x11 || fn == 0x13 then IMoveTo(fn, rs)
    else if fn in {0x18, 0x19, 0x1A, 0x1B} then IMulDiv(fn, rs, rt)
    else if fn == 0x0C || fn == 0x0D then ITrap(fn)
    else IAlu(fn, rd, rs, rt)
  }
}
