/** The ring reader of mc3api/purchase_hook.py. */
module PurchaseRing {
  import opened EeMemory
  import opened EeBridge
  import opened HookPurchase
  import opened RingLayout

  const CARCFG_NAME_OFFSET: nat := 0xDF

  datatype VehiclePurchase = VehiclePurchase(vehicleName: string, amount: int, walletBefore: nat, ordinal: nat)

  /** `_s32`. */
  function S32(v: Word): int {
    if v >= 0x8000_0000 then v - 0x1_0000_0000 else v
  }

  /** A difference taken mod 2^32 comes back exactly when it fits 32 signed bits. */
  lemma S32Recovers(x: int)
    ensures S32(x % 0x1_0000_0000) == x <==> -0x8000_0000 <= x < 0x8000_0000
  {}

  /** `_resolve_name`: a NUL-terminated string of at most 32 bytes behind a
      plausible record pointer; bytes that are not ASCII are replaced. */
  function ResolveName(m: Memory, recptr: Word): string {
    if 0x0010_0000 < recptr < 0x0200_0000 then CString(m, recptr + CARCFG_NAME_OFFSET, 32) else ""
  }

  /** The byte at a is not zero and reads as c. */
  predicate CharAt(m: Memory, a: nat, c: char) {
    Rd8(m, a) != 0 && c == if Rd8(m, a) < 0x80 then Rd8(m, a) as char else '\U{FFFD}'
  }

  /** s is the text at a: the n bytes from a up to the first zero, if there is one. */
  predicate IsCString(m: Memory, a: nat, n: nat, s: string) {
    && |s| <= n && (|s| < n ==> Rd8(m, a + |s|) == 0)
    && forall i :: 0 <= i < |s| ==> CharAt(m, a + i, s[i])
  }

  function CString(m: Memory, a: nat, n: nat): string
    decreases n
  {
    if n == 0 || Rd8(m, a) == 0 then ""
    else [if Rd8(m, a) < 128 then Rd8(m, a) as char else '\U{FFFD}'] + CString(m, a + 1, n - 1)
  }

  lemma {:induction false} CStringIs(m: Memory, a: nat, n: nat)
    ensures IsCString(m, a, n, CString(m, a, n))
    decreases n
  {
    if n > 0 && Rd8(m, a) != 0 {
      CStringIs(m, a + 1, n - 1);
      var s, rest := CString(m, a, n), CString(m, a + 1, n - 1);
      forall i | 0 <= i < |s|
        ensures CharAt(m, a + i, s[i])
      {
        assert i > 0 ==> CharAt(m, (a + 1) + (i - 1), rest[i - 1]);
      }
    }
  }

  lemma CStringUnique(m: Memory, a: nat, n: nat, s: string)
    requires IsCString(m, a, n, s)
    ensures s == CString(m, a, n)
  {
    CStringIs(m, a, n);
    var t := CString(m, a, n);
    NotShorter(m, a, n, s, t);
    NotShorter(m, a, n, t, s);
    assert forall i :: 0 <= i < |s| ==> CharAt(m, a + i, t[i]) && CharAt(m, a + i, s[i]);
  }

  lemma NotShorter(m: Memory, a: nat, n: nat, s: string, t: string)
    requires IsCString(m, a, n, s) && IsCString(m, a, n, t)
    ensures |s| >= |t|
  {
    assert |s| < |t| ==> CharAt(m, a + |s|, t[|s|]);
  }

  /** The name is that of no other text. */
  lemma ResolveNameIs(m: Memory, recptr: Word, name: string)
    ensures name == ResolveName(m, recptr)
            <==> if 0x0010_0000 < recptr < 0x0200_0000 then IsCString(m, recptr + 0xDF, 32, name) else name == ""
  {
    CStringIs(m, recptr + CARCFG_NAME_OFFSET, 32);
    hide IsCString;
    if IsCString(m, recptr + 0xDF, 32, name) {
      CStringUnique(m, recptr + 0xDF, 32, name);
    }
  }

  /** What a drain tells of a ring record: the amount as a signed word, the wallet and
      the ordinal as they are, and the name 0xDF behind the record pointer, or none if
      that pointer is not plausible. */
  predicate Shows(m: Memory, p: VehiclePurchase, r: Record) {
    && p.walletBefore == r.wallet && p.ordinal == r.ordinal
    && -0x8000_0000 <= p.amount < 0x8000_0000 && p.amount % 0x1_0000_0000 == r.amount
    && if 0x0010_0000 < r.recptr < 0x0200_0000 then IsCString(m, r.recptr + 0xDF, 32, p.vehicleName)
       else p.vehicleName == ""
  }

  function ToPurchase(m: Memory, r: Record): (p: VehiclePurchase)
    ensures Shows(m, p, r)
  {
    CStringIs(m, r.recptr + CARCFG_NAME_OFFSET, 32);
    VehiclePurchase(ResolveName(m, r.recptr), S32(r.amount), r.wallet, r.ordinal)
  }

  /** The slot `drain` reads for the k-th newest record. */
  function SlotOf(head: Word, k: nat): nat {
    (head - k + 1) % REC_COUNT
  }

  function NewCount(m: Memory, seen: nat): nat {
    if Count(m) <= seen then 0 else if Count(m) - seen < REC_COUNT then Count(m) - seen else REC_COUNT
  }

  /** The records a drain reads, oldest first. */
  function DrainRecords(m: Memory, seen: nat): (rs: seq<Record>)
    ensures |rs| == NewCount(m, seen)
  {
    seq(NewCount(m, seen), i requires 0 <= i < NewCount(m, seen) =>
      RecordAt(m, SlotOf(Head(m), NewCount(m, seen) - i)))
  }

  function ToPurchases(m: Memory, rs: seq<Record>): (ps: seq<VehiclePurchase>)
    ensures |ps| == |rs| && forall i :: 0 <= i < |rs| ==> Shows(m, ps[i], rs[i])
  {
    seq(|rs|, i requires 0 <= i < |rs| => ToPurchase(m, rs[i]))
  }

  class PurchaseRing {
    const bridge: Bridge
    var seen: nat

    constructor (bridge: Bridge)
      ensures this.bridge == bridge
      ensures seen == if bridge.online then Count(bridge.mem) else 0
    {
      this.bridge := bridge;
      seen := if bridge.online then Count(bridge.mem) else 0;
    }

    /** `_current_count`: a failed read counts as zero. */
    method CurrentCount() returns (count: nat)
      ensures count == if bridge.online then Count(bridge.mem) else 0
    {
      count := if bridge.online then Rd32(bridge.mem, RING_BASE) else 0;
    }

    method Drain() returns (out: seq<VehiclePurchase>)
      modifies this`seen
      ensures bridge.online ==> out == ToPurchases(bridge.mem, DrainRecords(bridge.mem, old(seen)))
      ensures bridge.online ==>
                var rs := DrainRecords(bridge.mem, old(seen));
                |out| == |rs| && forall i :: 0 <= i < |rs| ==> Shows(bridge.mem, out[i], rs[i])
      ensures bridge.online ==> seen == Count(bridge.mem)
      ensures !bridge.online ==> out == [] && seen == 0
    {
      hide Rd32, Rd8, RecordAt, ToPurchase;
      var count := CurrentCount();
      if count <= seen {
        seen := count;
        return [];
      }
      var unread := if count - seen < REC_COUNT then count - seen else REC_COUNT;
      out := [];
      var head := Head(bridge.mem);
      var k := unread;
      while k > 0
        invariant 0 <= k <= unread && unread == NewCount(bridge.mem, seen) && head == Head(bridge.mem)
        invariant out == ToPurchases(bridge.mem, DrainRecords(bridge.mem, seen))[..unread - k]
      {
        var slot := SlotOf(head, k);
        var rec := RecordAt(bridge.mem, slot);
        assert rec == DrainRecords(bridge.mem, seen)[unread - k];
        out := out + [ToPurchase(bridge.mem, rec)];
        k := k - 1;
      }
      seen := count;
    }
  }
}
