/** The purchase ring in memory: a count, a head and sixteen 16-byte records
    (layout comment of tools/hook_purchase.py). */
module RingLayout {
  import opened EeMemory
  import opened HookPurchase

  const RING_SIZE: nat := 0x110

  datatype Record = Record(recptr: Word, amount: Word, wallet: Word, ordinal: Word)

  function Count(m: Memory): Word {
    Rd32(m, RING_BASE)
  }

  function Head(m: Memory): Word {
    Rd32(m, RING_BASE + 4)
  }

  function SlotAddr(slot: nat): nat {
    RING_RECS + REC_SIZE * slot
  }

  function RecordAt(m: Memory, slot: nat): Record {
    var a := SlotAddr(slot);
    Record(Rd32(m, a), Rd32(m, a + 4), Rd32(m, a + 8), Rd32(m, a + 12))
  }

  /** The slot after the head, whatever the head word holds. */
  function NextSlot(m: Memory): nat {
    (Head(m) + 1) % REC_COUNT
  }

  /** m' is m with one record appended: the count goes up by one (mod 2^32),
      the head moves to the next slot, that slot holds the record, and no byte
      outside the ring and no other slot changes. */
  ghost predicate Appended(m: Memory, m': Memory, rec: Record) {
    && SameOutside(m, m', RING_BASE, RING_BASE + RING_SIZE)
    && Count(m') == (Count(m) + 1) % 0x1_0000_0000
    && Head(m') == NextSlot(m)
    && RecordAt(m', NextSlot(m)) == rec
    && forall slot :: 0 <= slot < REC_COUNT && slot != NextSlot(m) ==> RecordAt(m', slot) == RecordAt(m, slot)
  }

  function StoreRecord(m: Memory, slot: nat, rec: Record): Memory {
    var a := SlotAddr(slot);
    Wr32(Wr32(Wr32(Wr32(m, a, rec.recptr), a + 4, rec.amount), a + 8, rec.wallet), a + 12, rec.ordinal)
  }

  lemma StoreRecordEffect(m: Memory, slot: nat, rec: Record)
    ensures var m' := StoreRecord(m, slot, rec);
            && RecordAt(m', slot) == rec
            && SameOutside(m, m', SlotAddr(slot), SlotAddr(slot) + 16)
  {
    hide Rd32, Wr32, Rd8;
    var a := SlotAddr(slot);
    var m1 := Wr32(m, a, rec.recptr);
    var m2 := Wr32(m1, a + 4, rec.amount);
    var m3 := Wr32(m2, a + 8, rec.wallet);
    Wr32Effect(m, a, rec.recptr);
    Wr32Effect(m1, a + 4, rec.amount);
    Wr32Effect(m2, a + 8, rec.wallet);
    Wr32Effect(m3, a + 12, rec.ordinal);
  }

  /** The stores of the trampoline, in order, amount to one append. */
  lemma StoresAppend(m: Memory, recptr: Word, amount: Word, wallet: Word)
    ensures var ordinal := (Count(m) + 1) % 0x1_0000_0000;
            var m1 := Wr32(Wr32(m, RING_BASE, ordinal), RING_BASE + 4, NextSlot(m));
            var rec := Record(recptr, amount, wallet, ordinal);
            Appended(m, StoreRecord(m1, NextSlot(m), rec), rec)
  {
    hide Rd32, Wr32, Rd8, StoreRecord;
    var ordinal := (Count(m) + 1) % 0x1_0000_0000;
    var m0 := Wr32(m, RING_BASE, ordinal);
    var m1 := Wr32(m0, RING_BASE + 4, NextSlot(m));
    var rec := Record(recptr, amount, wallet, ordinal);
    var m2 := StoreRecord(m1, NextSlot(m), rec);
    Wr32Effect(m, RING_BASE, ordinal);
    Wr32Effect(m0, RING_BASE + 4, NextSlot(m));
    StoreRecordEffect(m1, NextSlot(m), rec);
    Rd32Same(m1, m2, RING_BASE);
    Rd32Same(m1, m2, RING_BASE + 4);
    forall slot | 0 <= slot < REC_COUNT && slot != NextSlot(m)
      ensures RecordAt(m2, slot) == RecordAt(m, slot)
    {
      var a := SlotAddr(slot);
      Rd32Same(m1, m2, a);
      Rd32Same(m1, m2, a + 4);
      Rd32Same(m1, m2, a + 8);
      Rd32Same(m1, m2, a + 12);
    }
  }
}
