/** The two-pass assembler of tools/mips_assembler.py: words are emitted in
    order, branches and jumps are left as zero words with a pending entry, and
    `Link` patches them in place once every label is known. */
module MipsAssembler {
  import opened Bits
  import opened MipsDisasm
  import opened EeMemory

  datatype R3Funct = ADD | ADDU | SUBU | AND | OR | SLT {
    function Code(): nat {
      match this
      case ADD => 0x20 case ADDU => 0x21 case SUBU => 0x23
      case AND => 0x24 case OR => 0x25 case SLT => 0x2A
    }
  }

  datatype ImmOp = ADDIU | LUI | ORI | ANDI | LW | SW | LB | LBU | SB {
    function Code(): nat {
      match this
      case ADDIU => 0x09 case LUI => 0x0F case ORI => 0x0D case ANDI => 0x0C
      case LW => 0x23 case SW => 0x2B case LB => 0x20 case LBU => 0x24 case SB => 0x28
    }
  }

  /** One call of an emitter method.  `Imm` covers the emitters that share the
      immediate format; for LUI the base register is ZERO. */
  datatype Op =
    | Nop
    | R3(funct: R3Funct, rd: Reg, rs: Reg, rt: Reg)
    | Sll(rd: Reg, rt: Reg, shamt: nat)
    | Jr(rs: Reg)
    | Jalr(rs: Reg, rd: Reg)
    | Mflo(rd: Reg)
    | Mfhi(rd: Reg)
    | Mult(rs: Reg, rt: Reg)
    | Imm(op: ImmOp, rt: Reg, rs: Reg, imm: int)
    | Branch(onEqual: bool, rs: Reg, rt: Reg, name: string)
    | Jump(link: bool, name: string)

  datatype Error = ImmediateOutOfRange(value: int) | UndefinedLabel(name: string) | WordTooWide

  datatype Result<T> = Ok(value: T) | Err(error: Error)

  // ---- Instruction words -------------------------------------------------

  /** `_r`: the fields are merged with `|`, so a shift amount of 32 or more
      spills into the rd field. */
  function EncodeR(code: nat, rd: Reg, rs: Reg, rt: Reg, shamt: nat): nat {
    BitOr(BitOr(BitOr(BitOr(rs * 0x20_0000, rt * 0x1_0000), rd * 0x800), shamt * 0x40), code)
  }

  /** `_i`: the immediate is masked to 16 bits. */
  function EncodeI(code: nat, rt: Reg, rs: Reg, imm: int): nat {
    BitOr(BitOr(BitOr(code * 0x400_0000, rs * 0x20_0000), rt * 0x1_0000), imm % 0x1_0000)
  }

  function EncodeJ(code: nat, target: nat): nat {
    BitOr(code * 0x400_0000, target / 4 % 0x400_0000)
  }

  function BranchCode(onEqual: bool): nat { if onEqual then 0x04 else 0x05 }
  function JumpCode(link: bool): nat { if link then 0x03 else 0x02 }

  predicate NeedsLabel(op: Op) { op.Branch? || op.Jump? }

  /** The word an emitter appends; zero stands for a word `Link` will patch. */
  function EmittedWord(op: Op): nat {
    match op
    case Nop => 0
    case R3(f, rd, rs, rt) => EncodeR(f.Code(), rd, rs, rt, 0)
    case Sll(rd, rt, shamt) => EncodeR(0x00, rd, ZERO, rt, shamt)
    case Jr(rs) => EncodeR(0x08, ZERO, rs, ZERO, 0)
    case Jalr(rs, rd) => EncodeR(0x09, rd, rs, ZERO, 0)
    case Mflo(rd) => EncodeR(0x12, rd, ZERO, ZERO, 0)
    case Mfhi(rd) => EncodeR(0x10, rd, ZERO, ZERO, 0)
    case Mult(rs, rt) => EncodeR(0x18, ZERO, rs, rt, 0)
    case Imm(op, rt, rs, imm) => EncodeI(op.Code(), rt, rs, imm)
    case Branch(_, _, _, _) => 0
    case Jump(_, _) => 0
  }

  /** The word after linking, at address addr. */
  function LinkedWord(op: Op, addr: nat, labels: map<string, nat>): nat
    requires NeedsLabel(op) ==> op.name in labels
  {
    match op
    case Branch(onEqual, rs, rt, name) =>
      EncodeI(BranchCode(onEqual), rt, rs, (labels[name] - addr - 4) / 4 % 0x1_0000)
    case Jump(link, name) => EncodeJ(JumpCode(link), labels[name])
    case _ => EmittedWord(op)
  }

  predicate Resolvable(ops: seq<Op>, labels: map<string, nat>) {
    forall k :: 0 <= k < |ops| && NeedsLabel(ops[k]) ==> ops[k].name in labels
  }

  /** The linked program, word by word. */
  function Linked(ops: seq<Op>, base: nat, labels: map<string, nat>): (ws: seq<nat>)
    requires Resolvable(ops, labels)
    ensures |ws| == |ops|
  {
    seq(|ops|, k requires 0 <= k < |ops| => LinkedWord(ops[k], base + 4 * k, labels))
  }

  // ---- The assembler object ----------------------------------------------

  datatype Instruction = Instruction(addr: nat, word: nat, rs: Reg, rt: Reg)

  datatype PendingKind = BEQ | BNE | J | JAL

  datatype Pending = Pending(idx: nat, name: string, kind: PendingKind)

  function PendingOf(op: Op, idx: nat): Pending
    requires NeedsLabel(op)
  {
    match op
    case Branch(onEqual, _, _, name) => Pending(idx, name, if onEqual then BEQ else BNE)
    case Jump(link, name) => Pending(idx, name, if link then JAL else J)
  }

  /** An instruction word is as emitted, or, if it needs a label, as patched by
      an earlier `Link`. */
  predicate Matches(instr: Instruction, op: Op, addr: nat) {
    && instr.addr == addr
    && (!NeedsLabel(op) ==> instr.word == EmittedWord(op))
    && (op.Branch? ==> instr.rs == op.rs && instr.rt == op.rt)
  }

  /** The word an instruction must hold once its label is resolved. */
  predicate Patched(instr: Instruction, op: Op, labels: map<string, nat>) {
    NeedsLabel(op) ==> op.name in labels && instr.word == LinkedWord(op, instr.addr, labels)
  }

  function LittleEndian(w: nat): seq<Byte> {
    [w % 256, w / 0x100 % 256, w / 0x1_0000 % 256, w / 0x100_0000 % 256]
  }

  function Bytes(ws: seq<nat>): (bs: seq<Byte>)
    ensures |bs| == 4 * |ws|
  {
    if ws == [] then [] else Bytes(ws[..|ws| - 1]) + LittleEndian(ws[|ws| - 1])
  }

  function Words(instrs: seq<Instruction>): (ws: seq<nat>)
    ensures |ws| == |instrs|
  {
    seq(|instrs|, k requires 0 <= k < |instrs| => instrs[k].word)
  }

  predicate WordsFit(ws: seq<nat>) {
    forall k :: 0 <= k < |ws| ==> ws[k] < 0x1_0000_0000
  }

  lemma WordsAreLinked(instrs: seq<Instruction>, ops: seq<Op>, base: nat, labels: map<string, nat>)
    requires |instrs| == |ops|
    requires forall k :: 0 <= k < |ops| ==> Matches(instrs[k], ops[k], base + 4 * k)
    requires forall k :: 0 <= k < |ops| ==> Patched(instrs[k], ops[k], labels)
    ensures Resolvable(ops, labels) && Words(instrs) == Linked(ops, base, labels)
    ensures WordsFit(Words(instrs)) <==> forall k :: 0 <= k < |instrs| ==> instrs[k].word < 0x1_0000_0000
  {
    assert forall k :: 0 <= k < |ops| ==> Words(instrs)[k] == instrs[k].word;
  }

  /** Labels stand at instruction boundaries counted from the base. */
  predicate PlacedLabels(labels: map<string, nat>, base: nat) {
    forall name :: name in labels ==> labels[name] >= base && (labels[name] - base) % 4 == 0
  }

  /** Instructions follow the emitter calls, and the pending list names
      exactly the instructions that need a label. */
  ghost predicate Consistent(instrs: seq<Instruction>, labels: map<string, nat>, pending: seq<Pending>,
                             ops: seq<Op>, base: nat) {
    && |instrs| == |ops| && PlacedLabels(labels, base)
    && (forall k :: 0 <= k < |ops| ==> Matches(instrs[k], ops[k], base + 4 * k))
    && (forall p :: 0 <= p < |pending| ==> pending[p].idx < |ops| && NeedsLabel(ops[pending[p].idx])
                                           && pending[p] == PendingOf(ops[pending[p].idx], pending[p].idx))
    && (forall k :: 0 <= k < |ops| && NeedsLabel(ops[k]) ==>
          exists p :: 0 <= p < |pending| && pending[p].idx == k)
  }

  class Assembler {
    const base: nat
    var instructions: seq<Instruction>
    var labels: map<string, nat>
    var pending: seq<Pending>

    ghost var ops: seq<Op>  // the emitter calls made so far

    ghost predicate Valid()
      reads this
    {
      Consistent(instructions, labels, pending, ops, base)
    }

    constructor (base: nat)
      ensures Valid() && this.base == base
      ensures ops == [] && labels == map[]
    {
      this.base := base;
      instructions, labels, pending, ops := [], map[], [], [];
    }

    /** `lbl`: name the current position; a later definition replaces it. */
    method Lbl(name: string)
      requires Valid()
      modifies this
      ensures Valid() && ops == old(ops)
      ensures labels == old(labels)[name := base + 4 * |ops|]
    {
      labels := labels[name := base + |instructions| * 4];
    }

    /** Every emitter method: `_imm16` rejects an immediate outside
        -32768..65535 before anything is appended. */
    method Emit(op: Op) returns (r: Result<()>)
      requires Valid()
      modifies this
      ensures Valid() && labels == old(labels)
      ensures r.Ok? <==> (op.Imm? ==> -32768 <= op.imm <= 65535)
      ensures ops == if r.Ok? then old(ops) + [op] else old(ops)
    {
      if op.Imm? && (op.imm < -32768 || op.imm > 65535) {
        return Err(ImmediateOutOfRange(op.imm));
      }
      var idx := |instructions|;
      if NeedsLabel(op) {
        pending := pending + [PendingOf(op, idx)];
      }
      var rs, rt := if op.Branch? then op.rs else ZERO, if op.Branch? then op.rt else ZERO;
      instructions := instructions + [Instruction(base + idx * 4, EmittedWord(op), rs, rt)];
      ops := ops + [op];
      assert NeedsLabel(op) ==> pending[|pending| - 1].idx == idx;
      assert forall p :: 0 <= p < |old(pending)| ==> pending[p] == old(pending)[p];
      r := Ok(());
    }

    /** Straight-line emission of instructions whose immediates are in range. */
    method EmitOk(op: Op)
      requires Valid()
      requires op.Imm? ==> -32768 <= op.imm <= 65535
      modifies this
      ensures Valid() && labels == old(labels) && ops == old(ops) + [op]
    {
      var _ := Emit(op);
    }

    /** `_resolve_branch` and `_resolve_jump`: recompute one pending word. */
    method Resolve(p: Pending) returns (r: Result<()>)
      requires Valid() && p in pending
      modifies this
      ensures Valid() && ops == old(ops) && labels == old(labels) && pending == old(pending)
      ensures r == if p.name in labels then Ok(()) else Err(UndefinedLabel(p.name))
      ensures |instructions| == |old(instructions)|
      ensures forall k :: 0 <= k < |ops| && k != p.idx ==> instructions[k] == old(instructions)[k]
      ensures r.Err? ==> instructions == old(instructions)
      ensures r.Ok? ==> Patched(instructions[p.idx], ops[p.idx], labels)
    {
      if p.name !in labels {
        return Err(UndefinedLabel(p.name));
      }
      var target := labels[p.name];
      var instr := instructions[p.idx];
      var word :=
        match p.kind
        case BEQ => EncodeI(BranchCode(true), instr.rt, instr.rs, (target - instr.addr - 4) / 4 % 0x1_0000)
        case BNE => EncodeI(BranchCode(false), instr.rt, instr.rs, (target - instr.addr - 4) / 4 % 0x1_0000)
        case J => EncodeJ(JumpCode(false), target)
        case JAL => EncodeJ(JumpCode(true), target);
      instructions := instructions[p.idx := instr.(word := word)];
      r := Ok(());
    }

    /** First half of `link`: patch every pending word, in order. */
    method ResolveAll() returns (r: Result<()>)
      requires Valid()
      modifies this
      ensures Valid() && ops == old(ops) && labels == old(labels) && pending == old(pending)
      ensures r.Ok? <==> Resolvable(ops, labels)
      ensures r.Ok? ==> forall k :: 0 <= k < |ops| ==> Patched(instructions[k], ops[k], labels)
      ensures r.Err? ==> r.error.UndefinedLabel? && r.error.name !in labels
      ensures r.Err? ==> exists k :: 0 <= k < |ops| && NeedsLabel(ops[k]) && ops[k].name == r.error.name
    {
      var i := 0;
      while i < |pending|
        invariant 0 <= i <= |pending|
        invariant Valid() && ops == old(ops) && labels == old(labels) && pending == old(pending)
        invariant forall p :: 0 <= p < i ==> Patched(instructions[pending[p].idx], ops[pending[p].idx], labels)
      {
        var done := Resolve(pending[i]);
        if done.Err? {
          assert NeedsLabel(ops[pending[i].idx]);
          return done;
        }
        i := i + 1;
      }
      r := Ok(());
      forall k | 0 <= k < |ops|
        ensures Patched(instructions[k], ops[k], labels)
      {
        if NeedsLabel(ops[k]) {
          var p :| 0 <= p < |pending| && pending[p].idx == k;
        }
      }
    }

    /** Second half of `link`: pack all words, little-endian. */
    method Pack() returns (r: Result<seq<Byte>>)
      ensures r.Ok? <==> forall k :: 0 <= k < |instructions| ==> instructions[k].word < 0x1_0000_0000
      ensures r.Ok? ==> r.value == Bytes(Words(instructions))
      ensures r.Err? ==> r.error == WordTooWide
    {
      var bytes: seq<Byte> := [];
      var n := 0;
      while n < |instructions|
        invariant 0 <= n <= |instructions|
        invariant bytes == Bytes(Words(instructions)[..n])
        invariant forall k :: 0 <= k < n ==> instructions[k].word < 0x1_0000_0000
      {
        if instructions[n].word >= 0x1_0000_0000 {
          return Err(WordTooWide);
        }
        bytes := bytes + LittleEndian(instructions[n].word);
        assert Words(instructions)[..n + 1][..n] == Words(instructions)[..n];
        n := n + 1;
      }
      assert Words(instructions)[..n] == Words(instructions);
      r := Ok(bytes);
    }

    /** `link`: the result depends only on the emitter calls and the labels, so
        linking a second time returns the same bytes. */
    method Link() returns (r: Result<seq<Byte>>)
      requires Valid()
      modifies this
      ensures Valid() && ops == old(ops) && labels == old(labels) && pending == old(pending)
      ensures r.Ok? <==> Resolvable(ops, labels) && WordsFit(Linked(ops, base, labels))
      ensures r.Ok? ==> r.value == Bytes(Linked(ops, base, labels))
      ensures !Resolvable(ops, labels) ==>
                && r.Err? && r.error.UndefinedLabel? && r.error.name !in labels
                && exists k :: 0 <= k < |ops| && NeedsLabel(ops[k]) && ops[k].name == r.error.name
    {
      var done := ResolveAll();
      if done.Err? {
        return Err(done.error);
      }
      WordsAreLinked(instructions, ops, base, labels);
      r := Pack();
    }
  }
}
