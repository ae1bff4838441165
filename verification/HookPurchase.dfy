/** The two purchase trampolines of tools/hook_purchase.py, as emitter calls
    and as the methods that assemble them. */
module HookPurchase {
  import opened MipsDisasm
  import opened MipsAssembler
  import opened EeMemory
  import opened AssemblerRoundTrip
  import opened EeMachine

  const ENFORCE_FLAG: nat := 0x0072_05FC
  const PERMIT_TABLE: nat := 0x0072_0600
  const PERMIT_SIZE: nat := 96
  const DETECT_TRAMP: nat := 0x0072_0920
  const DENY_TRAMP: nat := 0x0072_0A00
  const RING_BASE: nat := 0x0072_0B00
  const RING_RECS: nat := 0x0072_0B10
  const REC_SIZE: nat := 0x10
  const REC_COUNT: nat := 16

  const SPEND_MONEY: nat := 0x0033_7378
  const UI_SET: nat := 0x0032_0848
  const CARCFG_INDEX_FN: nat := 0x004A_F870
  const PENDING_FLAG: nat := 0x0061_79BD
  const WALLET: nat := 0x0080_0870
  const CTX_RECPTRS: nat := 0x071C
  const CTX_SELECTED: nat := 0x072C

  // ---- Sections of the trampolines ---------------------------------------

  /** wallet -> t1, wallet - newTotal -> t2, selected record pointer -> t4. */
  const DETECT_LOADS: seq<Op> := [
    Imm(LUI, T0, ZERO, 0x0080),
    Imm(LW, T1, T0, 0x0870),
    R3(SUBU, T2, T1, A1),
    Imm(LW, T3, A0, CTX_SELECTED),
    Sll(T3, T3, 2),
    R3(ADDU, T4, A0, T3),
    Imm(LW, T4, T4, CTX_RECPTRS)
  ]

  /** count + 1 -> t5, (head + 1) & 15 -> t6, both stored back. */
  const DETECT_ADVANCE: seq<Op> := [
    Imm(LUI, T0, ZERO, 0x0072),
    Imm(LW, T5, T0, 0x0B00),
    Imm(ADDIU, T5, T5, 1),
    Imm(SW, T5, T0, 0x0B00),
    Imm(LW, T6, T0, 0x0B04),
    Imm(ADDIU, T6, T6, 1),
    Imm(ANDI, T6, T6, 15),
    Imm(SW, T6, T0, 0x0B04)
  ]

  /** The four words of the record at slot t6. */
  const DETECT_RECORD: seq<Op> := [
    Sll(T7, T6, 4),
    R3(ADDU, T7, T7, T0),
    Imm(SW, T4, T7, 0x0B10),
    Imm(SW, T2, T7, 0x0B14),
    Imm(SW, T1, T7, 0x0B18),
    Imm(SW, T5, T7, 0x0B1C)
  ]

  const DETECT_OPS: seq<Op> := DETECT_LOADS + DETECT_ADVANCE + DETECT_RECORD + TailCall(SPEND_MONEY)

  const DENY_ENFORCE_CHECK: seq<Op> := [
    Imm(LUI, T0, ZERO, 0x0072),
    Imm(LB, T1, T0, 0x05FC),
    Branch(true, T1, ZERO, "forward"),
    Nop
  ]

  const DENY_SAVE: seq<Op> := [
    Imm(ADDIU, SP, SP, -32),
    Imm(SW, RA, SP, 0),
    Imm(SW, A0, SP, 4),
    Imm(SW, A1, SP, 8),
    Imm(SW, A2, SP, 12)
  ]

  /** The selected vehicle's record pointer -> a0. */
  const DENY_LOOKUP: seq<Op> := [
    Imm(LW, T0, S3, CTX_SELECTED),
    Sll(T0, T0, 2),
    R3(ADDU, T1, S3, T0),
    Imm(LW, A0, T1, CTX_RECPTRS)
  ]

  /** Permit byte -> t1. */
  const DENY_PERMIT: seq<Op> := [
    Imm(LUI, T0, ZERO, 0x0072),
    R3(ADDU, T0, T0, V0),
    Imm(LB, T1, T0, 0x0600)
  ]

  /** Arguments, ra and sp restored, branch if permitted. */
  const DENY_RESTORE: seq<Op> := [
    Imm(LW, A0, SP, 4),
    Imm(LW, A1, SP, 8),
    Imm(LW, A2, SP, 12),
    Imm(LW, RA, SP, 0),
    Imm(ADDIU, SP, SP, 32),
    Branch(false, T1, ZERO, "forward"),
    Nop
  ]

  const DENY_CANCEL: seq<Op> := [
    Imm(ADDIU, A2, ZERO, 0),
    Imm(LUI, T2, ZERO, 0x0061),
    Imm(SB, ZERO, T2, 0x79BD)
  ]

  const DENY_OPS: seq<Op> :=
    DENY_ENFORCE_CHECK + DENY_SAVE + DENY_LOOKUP + Call(CARCFG_INDEX_FN) + DENY_PERMIT
    + DENY_RESTORE + DENY_CANCEL + TailCall(UI_SET)

  const DENY_LABELS: map<string, nat> := map["forward" := DENY_TRAMP + 4 * 30]

  // ---- Builders ----------------------------------------------------------

  method EmitDetectLoads(a: Assembler)
    requires a.Valid()
    modifies a
    ensures a.Valid() && a.labels == old(a.labels) && a.ops == old(a.ops) + DETECT_LOADS
  {
    hide Consistent;
    a.EmitOk(Imm(LUI, T0, ZERO, WALLET / 0x1_0000));
    a.EmitOk(Imm(LW, T1, T0, WALLET % 0x1_0000));
    a.EmitOk(R3(SUBU, T2, T1, A1));
    a.EmitOk(Imm(LW, T3, A0, CTX_SELECTED));
    a.EmitOk(Sll(T3, T3, 2));
    a.EmitOk(R3(ADDU, T4, A0, T3));
    a.EmitOk(Imm(LW, T4, T4, CTX_RECPTRS));
  }

  method EmitDetectAdvance(a: Assembler)
    requires a.Valid()
    modifies a
    ensures a.Valid() && a.labels == old(a.labels) && a.ops == old(a.ops) + DETECT_ADVANCE
  {
    hide Consistent;
    a.EmitOk(Imm(LUI, T0, ZERO, 0x0072));
    a.EmitOk(Imm(LW, T5, T0, RING_BASE % 0x1_0000));
    a.EmitOk(Imm(ADDIU, T5, T5, 1));
    a.EmitOk(Imm(SW, T5, T0, RING_BASE % 0x1_0000));
    a.EmitOk(Imm(LW, T6, T0, (RING_BASE + 4) % 0x1_0000));
    a.EmitOk(Imm(ADDIU, T6, T6, 1));
    a.EmitOk(Imm(ANDI, T6, T6, REC_COUNT - 1));
    a.EmitOk(Imm(SW, T6, T0, (RING_BASE + 4) % 0x1_0000));
  }

  method EmitDetectRecord(a: Assembler)
    requires a.Valid()
    modifies a
    ensures a.Valid() && a.labels == old(a.labels) && a.ops == old(a.ops) + DETECT_RECORD
  {
    hide Consistent;
    a.EmitOk(Sll(T7, T6, 4));
    a.EmitOk(R3(ADDU, T7, T7, T0));
    a.EmitOk(Imm(SW, T4, T7, RING_RECS % 0x1_0000));
    a.EmitOk(Imm(SW, T2, T7, (RING_RECS + 4) % 0x1_0000));
    a.EmitOk(Imm(SW, T1, T7, (RING_RECS + 8) % 0x1_0000));
    a.EmitOk(Imm(SW, T5, T7, (RING_RECS + 12) % 0x1_0000));
  }

  lemma DetectLinks()
    ensures DETECT_OPS == [] + DETECT_LOADS + DETECT_ADVANCE + DETECT_RECORD + TailCall(SPEND_MONEY)
    ensures Resolvable(DETECT_OPS, map[]) && WordsFit(Linked(DETECT_OPS, DETECT_TRAMP, map[]))
  {
    LinkedFits(DETECT_OPS, DETECT_TRAMP, map[]);
  }

  method BuildDetectTramp() returns (code: seq<Byte>)
    ensures code == Bytes(Linked(DETECT_OPS, DETECT_TRAMP, map[]))
  {
    hide *;
    var a := new Assembler(DETECT_TRAMP);
    EmitDetectLoads(a);
    EmitDetectAdvance(a);
    EmitDetectRecord(a);
    EmitTailCall(a, SPEND_MONEY);
    DetectLinks();
    var r := a.Link();
    code := r.value;
  }

  method EmitDenyEnforceCheck(a: Assembler)
    requires a.Valid()
    modifies a
    ensures a.Valid() && a.labels == old(a.labels) && a.ops == old(a.ops) + DENY_ENFORCE_CHECK
  {
    hide Consistent;
    a.EmitOk(Imm(LUI, T0, ZERO, 0x0072));
    a.EmitOk(Imm(LB, T1, T0, ENFORCE_FLAG % 0x1_0000));
    a.EmitOk(Branch(true, T1, ZERO, "forward"));
    a.EmitOk(Nop);
  }

  method EmitDenySave(a: Assembler)
    requires a.Valid()
    modifies a
    ensures a.Valid() && a.labels == old(a.labels) && a.ops == old(a.ops) + DENY_SAVE
  {
    hide Consistent;
    a.EmitOk(Imm(ADDIU, SP, SP, -32));
    a.EmitOk(Imm(SW, RA, SP, 0));
    a.EmitOk(Imm(SW, A0, SP, 4));
    a.EmitOk(Imm(SW, A1, SP, 8));
    a.EmitOk(Imm(SW, A2, SP, 12));
  }

  method EmitDenyLookup(a: Assembler)
    requires a.Valid()
    modifies a
    ensures a.Valid() && a.labels == old(a.labels) && a.ops == old(a.ops) + DENY_LOOKUP
  {
    hide Consistent;
    a.EmitOk(Imm(LW, T0, S3, CTX_SELECTED));
    a.EmitOk(Sll(T0, T0, 2));
    a.EmitOk(R3(ADDU, T1, S3, T0));
    a.EmitOk(Imm(LW, A0, T1, CTX_RECPTRS));
  }

  method EmitDenyPermit(a: Assembler)
    requires a.Valid()
    modifies a
    ensures a.Valid() && a.labels == old(a.labels) && a.ops == old(a.ops) + DENY_PERMIT
  {
    hide Consistent;
    a.EmitOk(Imm(LUI, T0, ZERO, 0x0072));
    a.EmitOk(R3(ADDU, T0, T0, V0));
    a.EmitOk(Imm(LB, T1, T0, PERMIT_TABLE % 0x1_0000));
  }

  method EmitDenyRestore(a: Assembler)
    requires a.Valid()
    modifies a
    ensures a.Valid() && a.labels == old(a.labels) && a.ops == old(a.ops) + DENY_RESTORE
  {
    hide Consistent;
    a.EmitOk(Imm(LW, A0, SP, 4));
    a.EmitOk(Imm(LW, A1, SP, 8));
    a.EmitOk(Imm(LW, A2, SP, 12));
    a.EmitOk(Imm(LW, RA, SP, 0));
    a.EmitOk(Imm(ADDIU, SP, SP, 32));
    a.EmitOk(Branch(false, T1, ZERO, "forward"));
    a.EmitOk(Nop);
  }

  method EmitDenyCancel(a: Assembler)
    requires a.Valid()
    modifies a
    ensures a.Valid() && a.labels == old(a.labels) && a.ops == old(a.ops) + DENY_CANCEL
  {
    hide Consistent;
    a.EmitOk(Imm(ADDIU, A2, ZERO, 0));
    a.EmitOk(Imm(LUI, T2, ZERO, PENDING_FLAG / 0x1_0000));
    a.EmitOk(Imm(SB, ZERO, T2, PENDING_FLAG % 0x1_0000));
  }

  lemma DenyLinks()
    ensures DENY_OPS == [] + DENY_ENFORCE_CHECK + DENY_SAVE + DENY_LOOKUP + Call(CARCFG_INDEX_FN) + DENY_PERMIT
            + DENY_RESTORE + DENY_CANCEL + TailCall(UI_SET)
    ensures DENY_LABELS == map["forward" := DENY_TRAMP + 4 * |DENY_OPS| - 16]
    ensures Resolvable(DENY_OPS, DENY_LABELS) && WordsFit(Linked(DENY_OPS, DENY_TRAMP, DENY_LABELS))
  {
    LinkedFits(DENY_OPS, DENY_TRAMP, DENY_LABELS);
  }

  method BuildDenyTramp() returns (code: seq<Byte>)
    ensures Resolvable(DENY_OPS, DENY_LABELS)
    ensures code == Bytes(Linked(DENY_OPS, DENY_TRAMP, DENY_LABELS))
  {
    hide *;
    var a := new Assembler(DENY_TRAMP);
    EmitDenyEnforceCheck(a);
    EmitDenySave(a);
    EmitDenyLookup(a);
    EmitCall(a, CARCFG_INDEX_FN);
    EmitDenyPermit(a);
    EmitDenyRestore(a);
    EmitDenyCancel(a);
    a.Lbl("forward");
    EmitTailCall(a, UI_SET);
    DenyLinks();
    var r := a.Link();
    code := r.value;
  }
}
