/** Delivery of purchases over whole runs: the trampoline appends, the reader
    drains, in any order (each atomic with respect to the other). */
module PurchaseDelivery {
  import opened EeMemory
  import opened HookPurchase
  import opened RingLayout
  import opened PurchaseRing

  datatype Event =
    | Purchase(recptr: Word, amount: Word, wallet: Word)  // one run of the detect trampoline
    | GameRuns                                            // any other memory changes outside the ring
    | Drain                                               // a drain with the bridge reachable
    | ReadFails                                           // a drain or a new reader whose count read fails
    | Attach                                              // a restarted client's new reader
    | Rezero                                              // the install command zeroes the ring

  // ---- Memory level ------------------------------------------------------

  /** The memory, the reader's count, the records drained, and the purchases reported. */
  datatype System = System(mem: Memory, seen: nat, out: seq<Record>, reports: seq<VehiclePurchase>)

  ghost predicate Step(s: System, e: Event, t: System) {
    match e
    case Purchase(recptr, amount, wallet) =>
      && t == s.(mem := t.mem)
      && Appended(s.mem, t.mem, Record(recptr, amount, wallet, (Count(s.mem) + 1) % 0x1_0000_0000))
    case GameRuns => t == s.(mem := t.mem) && SameWithin(s.mem, t.mem, RING_BASE, RING_BASE + RING_SIZE)
    case Drain =>
      var rs := DrainRecords(s.mem, s.seen);
      t == System(s.mem, Count(s.mem), s.out + rs, s.reports + ToPurchases(s.mem, rs))
    case ReadFails => t == s.(seen := 0)
    case Attach => t == s.(seen := Count(s.mem))
    case Rezero => t == s.(mem := t.mem) && Count(t.mem) == 0 && Head(t.mem) == 0
  }

  ghost predicate IsRun(ss: seq<System>, es: seq<Event>) {
    && |ss| == |es| + 1
    && forall i :: 0 <= i < |es| ==> Step(ss[i], es[i], ss[i + 1])
  }

  // ---- The history the run should deliver --------------------------------

  /** log: the purchases since the ring was last zeroed, oldest first. */
  datatype History = History(log: seq<Record>, seen: nat, out: seq<Record>)

  function Window(h: History): nat {
    if |h.log| >= h.seen + REC_COUNT then |h.log| - REC_COUNT else if h.seen <= |h.log| then h.seen else |h.log|
  }

  function Next(h: History, e: Event): History {
    match e
    case Purchase(recptr, amount, wallet) =>
      h.(log := h.log + [Record(recptr, amount, wallet, (|h.log| + 1) % 0x1_0000_0000)])
    case GameRuns => h
    case Drain => h.(out := h.out + h.log[Window(h)..], seen := |h.log|)
    case ReadFails => h.(seen := 0)
    case Attach => h.(seen := |h.log|)
    case Rezero => h.(log := [])
  }

  /** From a reader's first attaching to a ring with this log. */
  function Replay(log: seq<Record>, es: seq<Event>): History {
    if es == [] then History(log, |log|, []) else Next(Replay(log, es[..|es| - 1]), es[|es| - 1])
  }

  /** The ring holds the last sixteen records of the log, record n at slot
      n mod 16. */
  ghost predicate Holds(m: Memory, log: seq<Record>) {
    && |log| < 0x1_0000_0000 && Count(m) == |log| && Head(m) == |log| % REC_COUNT
    && (forall n :: 0 <= n < |log| ==> log[n].ordinal == n + 1)
    && (forall n :: 0 <= n < |log| && |log| - REC_COUNT <= n ==> RecordAt(m, (n + 1) % REC_COUNT) == log[n])
  }

  lemma AppendedHolds(m: Memory, m': Memory, log: seq<Record>, recptr: Word, amount: Word, wallet: Word)
    requires Holds(m, log) && |log| + 1 < 0x1_0000_0000
    requires Appended(m, m', Record(recptr, amount, wallet, (Count(m) + 1) % 0x1_0000_0000))
    ensures Holds(m', log + [Record(recptr, amount, wallet, |log| + 1)])
  {
    hide RecordAt, Rd32, Rd8;
    var rec := Record(recptr, amount, wallet, |log| + 1);
    var log' := log + [rec];
    assert NextSlot(m) == (|log| + 1) % REC_COUNT;
    forall n | 0 <= n < |log'| && |log'| - REC_COUNT <= n
      ensures RecordAt(m', (n + 1) % REC_COUNT) == log'[n]
    {
      if n < |log| {
        assert (n + 1) % REC_COUNT != NextSlot(m);
      }
    }
  }

  /** A drain reads exactly the unseen part of the log that is still there. */
  lemma DrainReads(m: Memory, log: seq<Record>, seen: nat, out: seq<Record>)
    requires Holds(m, log)
    ensures DrainRecords(m, seen) == log[Window(History(log, seen, out))..]
  {
    hide RecordAt, Rd32, Rd8, Count, Head;
    var w := Window(History(log, seen, out));
    var rs := DrainRecords(m, seen);
    assert |rs| == |log| - w;
    forall i | 0 <= i < |rs|
      ensures rs[i] == log[w + i]
    {
      SlotOfRecord(|log|, |rs| - i);
    }
  }

  /** The k-th newest of n records stands at slot n - k + 1. */
  lemma SlotOfRecord(n: nat, k: nat)
    requires k <= n
    ensures SlotOf(n % REC_COUNT, k) == (n - k + 1) % REC_COUNT
  {}

  /** The newest record stands at the head. */
  lemma SlotOfHead(head: nat)
    requires head < REC_COUNT
    ensures SlotOf(head, 1) == head
  {}

  lemma RingKept(m: Memory, m': Memory, log: seq<Record>)
    requires Holds(m, log) && SameWithin(m, m', RING_BASE, RING_BASE + RING_SIZE)
    ensures Holds(m', log)
  {
    hide Rd32, Rd8;
    Rd32Same(m, m', RING_BASE);
    Rd32Same(m, m', RING_BASE + 4);
    forall slot | 0 <= slot < REC_COUNT
      ensures RecordAt(m', slot) == RecordAt(m, slot)
    {
      Rd32Same(m, m', SlotAddr(slot));
      Rd32Same(m, m', SlotAddr(slot) + 4);
      Rd32Same(m, m', SlotAddr(slot) + 8);
      Rd32Same(m, m', SlotAddr(slot) + 12);
    }
  }

  lemma StepDelivers(s: System, e: Event, t: System, h: History)
    requires Step(s, e, t) && Holds(s.mem, h.log) && s.seen == h.seen && s.out == h.out
    requires |h.log| + 1 < 0x1_0000_0000
    ensures Holds(t.mem, Next(h, e).log) && t.seen == Next(h, e).seen && t.out == Next(h, e).out
  {
    hide Rd32, Rd8, RecordAt;
    match e
    case Purchase(recptr, amount, wallet) =>
      hide Holds, Appended;
      CountIsLength(s.mem, h.log);
      AppendedHolds(s.mem, t.mem, h.log, recptr, amount, wallet);
    case GameRuns =>
      hide Holds;
      RingKept(s.mem, t.mem, h.log);
    case Drain => DrainReads(s.mem, h.log, h.seen, h.out);
    case ReadFails =>
    case Attach => CountIsLength(s.mem, h.log);
    case Rezero =>
  }

  lemma CountIsLength(m: Memory, log: seq<Record>)
    requires Holds(m, log)
    ensures Count(m) == |log|
  {}

  /** p tells of record r, as some memory of the run showed it. */
  ghost predicate ReportedIn(ss: seq<System>, p: VehiclePurchase, r: Record) {
    exists k :: 0 <= k < |ss| && Shows(ss[k].mem, p, r)
  }

  /** Report i tells of record i. */
  ghost predicate Reported(ss: seq<System>, reports: seq<VehiclePurchase>, out: seq<Record>) {
    |reports| == |out| && forall i :: 0 <= i < |out| ==> ReportedIn(ss, reports[i], out[i])
  }

  lemma StepReports(ss: seq<System>, e: Event)
    requires |ss| >= 2 && Step(ss[|ss| - 2], e, ss[|ss| - 1])
    requires Reported(ss[..|ss| - 1], ss[|ss| - 2].reports, ss[|ss| - 2].out)
    ensures Reported(ss, ss[|ss| - 1].reports, ss[|ss| - 1].out)
  {
    hide Shows, DrainRecords, Count, Head, Appended, SameWithin;
    var s, t := ss[|ss| - 2], ss[|ss| - 1];
    forall i | 0 <= i < |t.out|
      ensures ReportedIn(ss, t.reports[i], t.out[i])
    {
      if i < |s.out| {
        assert ReportedIn(ss[..|ss| - 1], s.reports[i], s.out[i]);
        var k :| 0 <= k < |ss| - 1 && Shows(ss[..|ss| - 1][k].mem, s.reports[i], s.out[i]);
        assert Shows(ss[k].mem, t.reports[i], t.out[i]);
      } else {
        assert Shows(ss[|ss| - 2].mem, t.reports[i], t.out[i]);
      }
    }
  }

  /** Every run of trampoline and readers, from any ring the first one attaches to,
      delivers what the history says, and reports what it delivers. */
  lemma {:induction false} RunDelivers(log: seq<Record>, ss: seq<System>, es: seq<Event>)
    requires IsRun(ss, es) && |log| + |es| < 0x1_0000_0000
    requires Holds(ss[0].mem, log) && ss[0].seen == |log| && ss[0].out == [] && ss[0].reports == []
    ensures var h := Replay(log, es); var s := ss[|es|];
            && |h.log| <= |log| + |es| && Holds(s.mem, h.log) && s.seen == h.seen && s.out == h.out
            && Reported(ss, s.reports, h.out)
  {
    hide Holds, Step, Reported;
    if es != [] {
      var n := |es| - 1;
      RunDelivers(log, ss[..n + 1], es[..n]);
      StepDelivers(ss[n], es[n], ss[n + 1], Replay(log, es[..n]));
      StepReports(ss, es[n]);
    } else {
      assert Reported(ss, ss[0].reports, ss[0].out) by { NothingReported(ss); }
    }
  }

  lemma NothingReported(ss: seq<System>)
    ensures Reported(ss, [], [])
  {}

  /** The bound on runs is sharp: at 2^32 - 1 purchases seen, the next one wraps
      the counter and is not delivered. */
  lemma WrapLosesPurchase(m: Memory, m': Memory, recptr: Word, amount: Word, wallet: Word)
    requires Count(m) == 0xFFFF_FFFF
    requires Appended(m, m', Record(recptr, amount, wallet, (Count(m) + 1) % 0x1_0000_0000))
    ensures DrainRecords(m', Count(m)) == []
  {
    hide Rd32, Rd8, RecordAt;
    assert Count(m') == 0;
  }
}
