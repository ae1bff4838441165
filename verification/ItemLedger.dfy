/** The money ledger of the running client (client/mc3ap/runner.py): items that
    `poll` returns are applied one by one, and money items add to a total that
    never goes down. */
module ItemLedger {
  import opened ApProtocol
  import opened GameWatcher
  import opened Text

  /** `money_amount_for`: the cash value of an item name, 0 for other items. */
  type AmountOf = string -> nat

  /** The name of an id without one. */
  function FallbackName(id: int): string {
    "item#" + Decimal(id)
  }

  function NameOf(names: map<int, string>, id: int): string {
    if id in names then names[id] else FallbackName(id)
  }

  /** A known id has its name; any other reads "item#" and its number. */
  lemma NameOfIs(names: map<int, string>, id: int)
    ensures id in names ==> NameOf(names, id) == names[id]
    ensures id !in names ==>
              var digits := NameOf(names, id)[5..];
              && NameOf(names, id)[..5] == "item#"
              && (id >= 0 ==> ValueOf(digits) == id)
              && (id < 0 ==> digits[0] == '-' && ValueOf(digits[1..]) == -id)
  {
    DecimalReads(id);
    assert FallbackName(id)[..5] == "item#" && FallbackName(id)[5..] == Decimal(id);
  }

  function Value(names: map<int, string>, amountOf: AmountOf, id: int): nat {
    amountOf(NameOf(names, id))
  }

  /** The money value of a sequence of items. */
  function MoneyOf(names: map<int, string>, amountOf: AmountOf, items: seq<ReceivedItem>): nat {
    if items == [] then 0
    else MoneyOf(names, amountOf, items[..|items| - 1]) + Value(names, amountOf, items[|items| - 1].itemId)
  }

  class ItemApplier {
    const names: map<int, string>
    const amountOf: AmountOf
    var total: nat
    var appliedPending: seq<string>

    constructor (names: map<int, string>, amountOf: AmountOf)
      ensures this.names == names && this.amountOf == amountOf && total == 0 && appliedPending == []
    {
      this.names, this.amountOf := names, amountOf;
      total, appliedPending := 0, [];
    }

    method Apply(id: int, runtime: Mc3ApiRuntime)
      requires runtime.Valid()
      modifies this`total, this`appliedPending, runtime, runtime.game`money, runtime.watcher`injectedMoney
      ensures runtime.Valid() && total == old(total) + Value(names, amountOf, id)
      ensures Value(names, amountOf, id) > 0 ==>
                runtime.moneyFloor >= total && (runtime.moneyFloor < 0x1_0000_0000 ==> runtime.game.money >= total)
                && runtime.pendingItems == old(runtime.pendingItems) && appliedPending == old(appliedPending)
      ensures Value(names, amountOf, id) == 0 ==>
                && runtime.game.money == old(runtime.game.money) && runtime.moneyFloor == old(runtime.moneyFloor)
                && runtime.pendingItems == old(runtime.pendingItems) + [NameOf(names, id)]
                && appliedPending == old(appliedPending) + [NameOf(names, id)]
    {
      var name := NameOf(names, id);
      var amount := amountOf(name);
      if amount > 0 {
        total := total + amount;
        runtime.ApplyMoneyTotal(total);
        return;
      }
      runtime.RecordPendingItem(name);
      appliedPending := appliedPending + [name];
    }

    /** The item half of one loop iteration: an exception from `poll` leaves
        nothing to apply, although the tracker may have moved on. */
    method ReceiveAndApply(client: ArchipelagoClient, batch: seq<ServerPacket>, runtime: Mc3ApiRuntime)
      requires runtime.Valid()
      modifies this, runtime, runtime.game`money, runtime.watcher`injectedMoney
      modifies client`checkedLocations, client`wire, client.tracker
      ensures var o := old(PollBatch(client.tracker.Fields(), client.checkedLocations,
                                   batch, client.open, client.sentChecks));
              && client.tracker.Fields() == o.track
              && total == old(total) + if o.failed then 0 else MoneyOf(names, amountOf, o.newItems)
      ensures runtime.Valid()
      ensures old(runtime.moneyFloor >= total) ==> runtime.moneyFloor >= total
    {
      hide PollBatch, Value;
      var r := client.Poll(batch);
      if r.SendFailed? {
        return;
      }
      var items := r.items;
      for i := 0 to |items|
        invariant total == old(total) + MoneyOf(names, amountOf, items[..i])
        invariant runtime.Valid()
        invariant old(runtime.moneyFloor >= total) ==> runtime.moneyFloor >= total
        invariant client.tracker.Fields()
                  == old(PollBatch(client.tracker.Fields(), client.checkedLocations,
                                   batch, client.open, client.sentChecks)).track
      {
        assert items[..i + 1][..i] == items[..i];
        Apply(items[i].itemId, runtime);
      }
      assert items[..|items|] == items;
    }
  }

  // ---- The ledger over runs ----------------------------------------------

  /** One iteration of the client: the packets that arrived, and whether the
      socket could send. */
  datatype Iteration = Iteration(batch: seq<ServerPacket>, open: bool, sentChecks: set<int>)

  /** The tracker and the applier's total, with the money value of inventories
      dropped by index-0 packets and of items accepted in a poll that failed. */
  datatype Ledger = Ledger(track: Track, total: nat, discarded: nat, lost: nat)

  function Discarded(names: map<int, string>, amountOf: AmountOf, t: Track, it: Iteration): nat
    decreases |it.batch|
  {
    if it.batch == [] then 0
    else
      var n := |it.batch| - 1;
      var before := PollBatch(t, [], it.batch[..n], it.open, it.sentChecks);
      var p := it.batch[n];
      Discarded(names, amountOf, t, it.(batch := it.batch[..n]))
      + if !before.failed && p.ReceivedItems? && p.index == 0
        then MoneyOf(names, amountOf, before.track.inventory) else 0
  }

  function Iterate(names: map<int, string>, amountOf: AmountOf, l: Ledger, it: Iteration): Ledger {
    var o := PollBatch(l.track, [], it.batch, it.open, it.sentChecks);
    var value := MoneyOf(names, amountOf, o.newItems);
    Ledger(o.track, l.total + (if o.failed then 0 else value),
           l.discarded + Discarded(names, amountOf, l.track, it),
           l.lost + if o.failed then value else 0)
  }

  function RunAll(names: map<int, string>, amountOf: AmountOf, its: seq<Iteration>): Ledger {
    if its == [] then Ledger(EMPTY_TRACK, 0, 0, 0)
    else Iterate(names, amountOf, RunAll(names, amountOf, its[..|its| - 1]), its[|its| - 1])
  }

  lemma {:induction false} MoneyOfConcat(names: map<int, string>, amountOf: AmountOf, a: seq<ReceivedItem>,
                                         b: seq<ReceivedItem>)
    ensures MoneyOf(names, amountOf, a + b) == MoneyOf(names, amountOf, a) + MoneyOf(names, amountOf, b)
  {
    hide Value;
    if b == [] {
      assert a + b == a;
    } else {
      var ab, n := a + b, |b| - 1;
      MoneyOfConcat(names, amountOf, a, b[..n]);
      assert ab != [] && ab[..|ab| - 1] == a + b[..n] && ab[|ab| - 1] == b[n];
      assert MoneyOf(names, amountOf, ab) == MoneyOf(names, amountOf, a + b[..n]) + Value(names, amountOf, b[n].itemId);
    }
  }

  /** Within one poll: inventory gained = items accepted - inventories dropped. */
  lemma {:induction false} BatchBalance(names: map<int, string>, amountOf: AmountOf, t: Track, it: Iteration)
    ensures var o := PollBatch(t, [], it.batch, it.open, it.sentChecks);
            MoneyOf(names, amountOf, o.track.inventory) + Discarded(names, amountOf, t, it)
            == MoneyOf(names, amountOf, t.inventory) + MoneyOf(names, amountOf, o.newItems)
    decreases |it.batch|
  {
    if it.batch != [] {
      hide MoneyOf, OnePacket;
      var n := |it.batch| - 1;
      BatchBalance(names, amountOf, t, it.(batch := it.batch[..n]));
      PacketBalance(names, amountOf, PollBatch(t, [], it.batch[..n], it.open, it.sentChecks),
                    it.batch[n], it.open, it.sentChecks);
    }
  }

  lemma PacketBalance(names: map<int, string>, amountOf: AmountOf, before: Outcome, p: ServerPacket, open: bool,
                      sentChecks: set<int>)
    ensures var after := OnePacket(before, p, open, sentChecks);
            var dropped := if !before.failed && p.ReceivedItems? && p.index == 0
                           then MoneyOf(names, amountOf, before.track.inventory)
                           else 0;
            MoneyOf(names, amountOf, after.track.inventory) + dropped + MoneyOf(names, amountOf, before.newItems)
            == MoneyOf(names, amountOf, before.track.inventory) + MoneyOf(names, amountOf, after.newItems)
  {
    if !before.failed && p.ReceivedItems? {
      hide MoneyOf, Numbered;
      MoneyOfConcat(names, amountOf, before.newItems, ResultOf(before.track, p.index, p.items).newItems);
      MoneyOfConcat(names, amountOf, before.track.inventory, Numbered(p.items, before.track.nextIndex));
    }
  }

  /** The books balance over every run: total + lost = inventory + discarded. */
  lemma {:induction false} LedgerBalances(names: map<int, string>, amountOf: AmountOf, its: seq<Iteration>)
    ensures var l := RunAll(names, amountOf, its);
            l.total + l.lost == MoneyOf(names, amountOf, l.track.inventory) + l.discarded
  {
    if its != [] {
      LedgerBalances(names, amountOf, its[..|its| - 1]);
      BatchBalance(names, amountOf, RunAll(names, amountOf, its[..|its| - 1]).track, its[|its| - 1]);
    }
  }

  /** The total is the inventory's value if and only if replaced inventories and
      failed polls cost the same; without failed polls it never falls below it. */
  lemma TotalEqualsInventoryIff(names: map<int, string>, amountOf: AmountOf, its: seq<Iteration>)
    ensures var l := RunAll(names, amountOf, its);
            && (l.total == MoneyOf(names, amountOf, l.track.inventory) <==> l.discarded == l.lost)
            && (l.lost == 0 ==> l.total >= MoneyOf(names, amountOf, l.track.inventory))
  {
    LedgerBalances(names, amountOf, its);
  }

  // ---- The same in terms of the packets ----------------------------------

  /** The index expected after a batch that starts at `next`. */
  function Expected(next: int, batch: seq<ServerPacket>): int {
    if batch == [] then next
    else
      var before := Expected(next, batch[..|batch| - 1]);
      var p := batch[|batch| - 1];
      if p.ReceivedItems? && p.index == 0 then |p.items|
      else if p.ReceivedItems? && p.index == before then before + |p.items|
      else before
  }

  /** Packet k is out of sequence: its index is neither 0 nor the expected one. */
  predicate GapAt(next: int, batch: seq<ServerPacket>, k: nat)
    requires k < |batch|
  {
    batch[k].ReceivedItems? && batch[k].index != 0 && batch[k].index != Expected(next, batch[..k])
  }

  predicate HasGap(next: int, batch: seq<ServerPacket>) {
    exists k :: 0 <= k < |batch| && GapAt(next, batch, k)
  }

  lemma GapSnoc(next: int, batch: seq<ServerPacket>)
    requires batch != []
    ensures var n := |batch| - 1; HasGap(next, batch) <==> HasGap(next, batch[..n]) || GapAt(next, batch, n)
  {
    var n := |batch| - 1;
    forall k | 0 <= k < n
      ensures GapAt(next, batch, k) == GapAt(next, batch[..n], k)
    {
      assert batch[..n][..k] == batch[..k];
    }
    hide GapAt;
    if k :| 0 <= k < n && GapAt(next, batch[..n], k) {
      assert GapAt(next, batch, k);
    }
    if k :| 0 <= k < |batch| && k != n && GapAt(next, batch, k) {
      assert GapAt(next, batch[..n], k);
    }
  }

  /** A poll fails exactly if the socket is closed and some packet is out of
      sequence. */
  lemma {:induction false} PollFailsIff(t: Track, batch: seq<ServerPacket>, open: bool, sentChecks: set<int>)
    ensures var o := PollBatch(t, [], batch, open, sentChecks);
            && (o.failed <==> !open && HasGap(t.nextIndex, batch))
            && (!o.failed ==> o.track.nextIndex == Expected(t.nextIndex, batch))
  {
    if batch != [] {
      hide HasGap;
      GapSnoc(t.nextIndex, batch);
      PollFailsIff(t, batch[..|batch| - 1], open, sentChecks);
    }
  }

  predicate Valuable(names: map<int, string>, amountOf: AmountOf, p: ServerPacket) {
    p.ReceivedItems? && exists j :: 0 <= j < |p.items| && Value(names, amountOf, p.items[j].item) > 0
  }

  /** Packet k brings an item with value, and no packet before it or at it is out of
      sequence. */
  predicate ValueInSequence(names: map<int, string>, amountOf: AmountOf, next: int, batch: seq<ServerPacket>, k: nat)
    requires k < |batch|
  {
    Valuable(names, amountOf, batch[k]) && !HasGap(next, batch[..k + 1])
  }

  /** The poll loses money: the socket is closed, some packet is out of sequence, and
      one with value came before it. */
  predicate LosesMoney(names: map<int, string>, amountOf: AmountOf, next: int, it: Iteration) {
    && !it.open && HasGap(next, it.batch)
    && exists k :: 0 <= k < |it.batch| && ValueInSequence(names, amountOf, next, it.batch, k)
  }

  /** The poll drops money: an index-0 packet, not after a failure, meets an inventory
      with value. */
  predicate DropsMoney(names: map<int, string>, amountOf: AmountOf, t: Track, it: Iteration) {
    exists k :: 0 <= k < |it.batch| && DropsAt(names, amountOf, t, it, k)
  }

  predicate DropsAt(names: map<int, string>, amountOf: AmountOf, t: Track, it: Iteration, k: nat)
    requires k < |it.batch|
  {
    && it.batch[k].ReceivedItems? && it.batch[k].index == 0 && (it.open || !HasGap(t.nextIndex, it.batch[..k]))
    && MoneyOf(names, amountOf, PollBatch(t, [], it.batch[..k], it.open, it.sentChecks).track.inventory) > 0
  }

  lemma {:induction false} MoneyPositiveIff(names: map<int, string>, amountOf: AmountOf, items: seq<ReceivedItem>)
    ensures MoneyOf(names, amountOf, items) > 0
            <==> exists j :: 0 <= j < |items| && Value(names, amountOf, items[j].itemId) > 0
  {
    hide Value;
    if items != [] {
      var n := |items| - 1;
      MoneyPositiveIff(names, amountOf, items[..n]);
      if j :| 0 <= j < |items[..n]| && Value(names, amountOf, items[..n][j].itemId) > 0 {
        assert Value(names, amountOf, items[j].itemId) > 0;
      }
      if j :| 0 <= j < |items| && j != n && Value(names, amountOf, items[j].itemId) > 0 {
        assert Value(names, amountOf, items[..n][j].itemId) > 0;
      }
    }
  }

  lemma NumberedPositiveIff(names: map<int, string>, amountOf: AmountOf, p: ServerPacket, start: int)
    requires p.ReceivedItems?
    ensures MoneyOf(names, amountOf, ApProtocol.Numbered(p.items, start)) > 0 <==> Valuable(names, amountOf, p)
  {
    hide Value;
    var items := ApProtocol.Numbered(p.items, start);
    MoneyPositiveIff(names, amountOf, items);
    if j :| 0 <= j < |items| && Value(names, amountOf, items[j].itemId) > 0 {
      assert Value(names, amountOf, p.items[j].item) > 0;
    }
    if j :| 0 <= j < |p.items| && Value(names, amountOf, p.items[j].item) > 0 {
      assert Value(names, amountOf, items[j].itemId) > 0;
    }
  }

  /** What a closed poll accepted has value exactly if a packet in sequence had. */
  lemma {:induction false} AcceptedPositiveIff(names: map<int, string>, amountOf: AmountOf, t: Track,
                                               batch: seq<ServerPacket>, sentChecks: set<int>)
    ensures MoneyOf(names, amountOf, PollBatch(t, [], batch, false, sentChecks).newItems) > 0
            <==> exists k :: 0 <= k < |batch| && ValueInSequence(names, amountOf, t.nextIndex, batch, k)
  {
    if batch != [] {
      hide PollBatch, MoneyOf, ValueInSequence, Valuable, HasGap;
      var n := |batch| - 1;
      AcceptedPositiveIff(names, amountOf, t, batch[..n], sentChecks);
      ValueSnoc(names, amountOf, t.nextIndex, batch);
      AcceptOne(names, amountOf, t, batch, sentChecks);
    }
  }

  lemma ValueSnoc(names: map<int, string>, amountOf: AmountOf, next: int, batch: seq<ServerPacket>)
    requires batch != []
    ensures var n := |batch| - 1;
            (exists k :: 0 <= k < |batch| && ValueInSequence(names, amountOf, next, batch, k))
            <==> (exists k :: 0 <= k < n && ValueInSequence(names, amountOf, next, batch[..n], k))
                 || (Valuable(names, amountOf, batch[n]) && !HasGap(next, batch))
  {
    hide ValueInSequence, Valuable, HasGap;
    var n := |batch| - 1;
    forall k | 0 <= k < n
      ensures ValueInSequence(names, amountOf, next, batch, k) == ValueInSequence(names, amountOf, next, batch[..n], k)
    {
      SameValue(names, amountOf, next, batch, n, k);
    }
    LastValue(names, amountOf, next, batch);
    if k :| 0 <= k < n && ValueInSequence(names, amountOf, next, batch[..n], k) {
      assert ValueInSequence(names, amountOf, next, batch, k);
    }
    if k :| 0 <= k < n && ValueInSequence(names, amountOf, next, batch, k) {
      assert ValueInSequence(names, amountOf, next, batch[..n], k);
    }
  }

  lemma SameValue(names: map<int, string>, amountOf: AmountOf, next: int, batch: seq<ServerPacket>, n: nat, k: nat)
    requires k < n <= |batch|
    ensures ValueInSequence(names, amountOf, next, batch, k) == ValueInSequence(names, amountOf, next, batch[..n], k)
  {
    hide Valuable, HasGap;
    assert batch[..n][..k + 1] == batch[..k + 1];
  }

  lemma LastValue(names: map<int, string>, amountOf: AmountOf, next: int, batch: seq<ServerPacket>)
    requires batch != []
    ensures var n := |batch| - 1;
            ValueInSequence(names, amountOf, next, batch, n)
            <==> Valuable(names, amountOf, batch[n]) && !HasGap(next, batch)
  {
    hide Valuable, HasGap;
    assert batch[..|batch| - 1 + 1] == batch;
  }

  lemma AcceptOne(names: map<int, string>, amountOf: AmountOf, t: Track, batch: seq<ServerPacket>, sentChecks: set<int>)
    requires batch != []
    ensures var n := |batch| - 1;
            MoneyOf(names, amountOf, PollBatch(t, [], batch, false, sentChecks).newItems) > 0
            <==> MoneyOf(names, amountOf, PollBatch(t, [], batch[..n], false, sentChecks).newItems) > 0
                 || (Valuable(names, amountOf, batch[n]) && !HasGap(t.nextIndex, batch))
  {
    hide HasGap, MoneyOf, Valuable;
    var n := |batch| - 1;
    var before := PollBatch(t, [], batch[..n], false, sentChecks);
    PollFailsIff(t, batch, false, sentChecks);
    PollFailsIff(t, batch[..n], false, sentChecks);
    GapSnoc(t.nextIndex, batch);
    if !before.failed && batch[n].ReceivedItems? && !GapAt(t.nextIndex, batch, n) {
      var start := if batch[n].index == 0 then 0 else before.track.nextIndex;
      NumberedPositiveIff(names, amountOf, batch[n], start);
      MoneyOfConcat(names, amountOf, before.newItems, ApProtocol.Numbered(batch[n].items, start));
    } else if !batch[n].ReceivedItems? {
      NotValuable(names, amountOf, batch[n]);
    }
  }

  lemma NotValuable(names: map<int, string>, amountOf: AmountOf, p: ServerPacket)
    requires !p.ReceivedItems?
    ensures !Valuable(names, amountOf, p)
  {}

  lemma {:induction false} DiscardedPositiveIff(names: map<int, string>, amountOf: AmountOf, t: Track, it: Iteration)
    ensures Discarded(names, amountOf, t, it) > 0 <==> DropsMoney(names, amountOf, t, it)
    decreases |it.batch|
  {
    if it.batch != [] {
      hide MoneyOf, PollBatch, HasGap, DropsMoney;
      var n := |it.batch| - 1;
      DiscardedPositiveIff(names, amountOf, t, it.(batch := it.batch[..n]));
      PollFailsIff(t, it.batch[..n], it.open, it.sentChecks);
      DropsSnoc(names, amountOf, t, it);
    }
  }

  lemma DropsSnoc(names: map<int, string>, amountOf: AmountOf, t: Track, it: Iteration)
    requires it.batch != []
    ensures var n := |it.batch| - 1;
            DropsMoney(names, amountOf, t, it)
            <==> DropsMoney(names, amountOf, t, it.(batch := it.batch[..n])) || DropsAt(names, amountOf, t, it, n)
  {
    var n := |it.batch| - 1;
    var shorter := it.(batch := it.batch[..n]);
    forall k | 0 <= k < n
      ensures DropsAt(names, amountOf, t, shorter, k) == DropsAt(names, amountOf, t, it, k)
    {
      assert it.batch[..n][..k] == it.batch[..k];
    }
    hide DropsAt;
    if k :| 0 <= k < n && DropsAt(names, amountOf, t, shorter, k) {
      assert DropsAt(names, amountOf, t, it, k);
    }
    if k :| 0 <= k < n && DropsAt(names, amountOf, t, it, k) {
      assert DropsAt(names, amountOf, t, shorter, k);
    }
  }

  /** Over every run, money is lost exactly if some poll loses it, and dropped
      exactly if some poll drops it. */
  lemma {:induction false} RunCostsIff(names: map<int, string>, amountOf: AmountOf, its: seq<Iteration>)
    ensures RunAll(names, amountOf, its).lost == 0 <==> NeverLoses(names, amountOf, its)
    ensures RunAll(names, amountOf, its).discarded == 0 <==> NeverDrops(names, amountOf, its)
  {
    hide Iterate, NeverLoses, NeverDrops, LosesMoney, DropsMoney;
    if its == [] {
      NothingCosts(names, amountOf);
    } else {
      var n := |its| - 1;
      RunCostsIff(names, amountOf, its[..n]);
      IterationCosts(names, amountOf, RunAll(names, amountOf, its[..n]), its[n]);
      NeverSnoc(names, amountOf, its);
    }
  }

  lemma NothingCosts(names: map<int, string>, amountOf: AmountOf)
    ensures NeverLoses(names, amountOf, []) && NeverDrops(names, amountOf, [])
  {}

  lemma NeverSnoc(names: map<int, string>, amountOf: AmountOf, its: seq<Iteration>)
    requires its != []
    ensures var n := |its| - 1;
            && (NeverLoses(names, amountOf, its)
                <==> NeverLoses(names, amountOf, its[..n]) && !LosesAt(names, amountOf, its, n))
            && (NeverDrops(names, amountOf, its)
                <==> NeverDrops(names, amountOf, its[..n]) && !DropsIn(names, amountOf, its, n))
  {
    hide LosesAt, DropsIn;
    var n := |its| - 1;
    forall i | 0 <= i < n
      ensures LosesAt(names, amountOf, its, i) == LosesAt(names, amountOf, its[..n], i)
      ensures DropsIn(names, amountOf, its, i) == DropsIn(names, amountOf, its[..n], i)
    {
      SamePrefix(names, amountOf, its, n, i);
    }
  }

  lemma SamePrefix(names: map<int, string>, amountOf: AmountOf, its: seq<Iteration>, n: nat, i: nat)
    requires i < n <= |its|
    ensures LosesAt(names, amountOf, its, i) == LosesAt(names, amountOf, its[..n], i)
    ensures DropsIn(names, amountOf, its, i) == DropsIn(names, amountOf, its[..n], i)
  {
    hide RunAll, LosesMoney, DropsMoney;
    assert its[..n][..i] == its[..i];
  }

  lemma IterationCosts(names: map<int, string>, amountOf: AmountOf, l: Ledger, it: Iteration)
    ensures var after := Iterate(names, amountOf, l, it);
            && (after.lost == l.lost <==> !LosesMoney(names, amountOf, l.track.nextIndex, it))
            && (after.discarded == l.discarded <==> !DropsMoney(names, amountOf, l.track, it))
            && after.lost >= l.lost && after.discarded >= l.discarded
  {
    hide MoneyOf, HasGap, ValueInSequence, DropsMoney, Discarded, PollBatch;
    PollFailsIff(l.track, it.batch, it.open, it.sentChecks);
    AcceptedPositiveIff(names, amountOf, l.track, it.batch, it.sentChecks);
    DiscardedPositiveIff(names, amountOf, l.track, it);
  }

  predicate NeverLoses(names: map<int, string>, amountOf: AmountOf, its: seq<Iteration>) {
    forall i :: 0 <= i < |its| ==> !LosesAt(names, amountOf, its, i)
  }

  predicate NeverDrops(names: map<int, string>, amountOf: AmountOf, its: seq<Iteration>) {
    forall i :: 0 <= i < |its| ==> !DropsIn(names, amountOf, its, i)
  }

  /** Iteration i of the run loses money, in a poll that fails after taking it. */
  predicate LosesAt(names: map<int, string>, amountOf: AmountOf, its: seq<Iteration>, i: nat)
    requires i < |its|
  {
    LosesMoney(names, amountOf, RunAll(names, amountOf, its[..i]).track.nextIndex, its[i])
  }

  /** Iteration i of the run drops money, with an inventory it replaces. */
  predicate DropsIn(names: map<int, string>, amountOf: AmountOf, its: seq<Iteration>, i: nat)
    requires i < |its|
  {
    DropsMoney(names, amountOf, RunAll(names, amountOf, its[..i]).track, its[i])
  }

  /** With the socket open nothing is lost. */
  lemma {:induction false} OpenLosesNothing(names: map<int, string>, amountOf: AmountOf, its: seq<Iteration>)
    requires forall i :: 0 <= i < |its| ==> its[i].open
    ensures RunAll(names, amountOf, its).lost == 0
  {
    if its != [] {
      var n := |its| - 1;
      OpenLosesNothing(names, amountOf, its[..n]);
      OpenNeverFails(RunAll(names, amountOf, its[..n]).track, its[n]);
    }
  }

  lemma {:induction false} OpenNeverFails(t: Track, it: Iteration)
    requires it.open
    ensures !PollBatch(t, [], it.batch, it.open, it.sentChecks).failed
    decreases |it.batch|
  {
    if it.batch != [] {
      OpenNeverFails(t, it.(batch := it.batch[..|it.batch| - 1]));
    }
  }

  /** A resync replays the inventory and its money is counted again. */
  lemma ReplayDoublesMoney(names: map<int, string>, amountOf: AmountOf, it: RawItem)
    requires Value(names, amountOf, it.item) > 0
    ensures var full := Iteration([ReceivedItems(0, [it])], true, {});
            var l := RunAll(names, amountOf, [full, full]);
            && |l.track.inventory| == 1
            && l.total == 2 * MoneyOf(names, amountOf, l.track.inventory)
  {
    var full := Iteration([ReceivedItems(0, [it])], true, {});
    var one := Numbered([it], 0);
    assert one[..0] == [];
    assert MoneyOf(names, amountOf, one) == Value(names, amountOf, it.item);
    FullPacketPoll(EMPTY_TRACK, it);
    FullPacketPoll(Track(1, one), it);
    assert [full, full][..1] == [full] && [full][..0] == [];
    assert RunAll(names, amountOf, []).track == EMPTY_TRACK;
    assert RunAll(names, amountOf, [full]).track == Track(1, one);
    assert RunAll(names, amountOf, [full]).total == Value(names, amountOf, it.item);
  }

  lemma FullPacketPoll(t: Track, it: RawItem)
    ensures var o := PollBatch(t, [], [ReceivedItems(0, [it])], true, {});
            o.track == Track(1, Numbered([it], 0)) && o.newItems == Numbered([it], 0) && !o.failed
  {
    var batch := [ReceivedItems(0, [it])];
    assert batch[..0] == [];
    assert PollBatch(t, [], [], true, {}) == Outcome(t, [], [], [], false);
    assert PollBatch(t, [], batch, true, {}) == OnePacket(PollBatch(t, [], [], true, {}), batch[0], true, {});
  }

  /** An item accepted before a gap whose resync cannot be sent is in the
      inventory but its money is never granted. */
  lemma FailedPollLosesMoney(names: map<int, string>, amountOf: AmountOf, it: RawItem)
    requires Value(names, amountOf, it.item) > 0
    ensures var l := RunAll(names, amountOf, [Iteration([ReceivedItems(0, [it]), ReceivedItems(9, [it])], false, {})]);
            l.total == 0 < MoneyOf(names, amountOf, l.track.inventory)
  {
    var batch := [ReceivedItems(0, [it]), ReceivedItems(9, [it])];
    var one := Numbered([it], 0);
    assert batch[..1] == [ReceivedItems(0, [it])] && batch[..1][..0] == [] && one[..0] == [];
    var o0 := PollBatch(EMPTY_TRACK, [], [], false, {});
    var o1 := OnePacket(o0, batch[0], false, {});
    assert PollBatch(EMPTY_TRACK, [], batch[..1], false, {}) == o1;
    assert o1.track == Track(1, one);
    assert PollBatch(EMPTY_TRACK, [], batch, false, {}) == OnePacket(o1, batch[1], false, {}) == o1.(failed := true);
    assert MoneyOf(names, amountOf, one) == Value(names, amountOf, it.item);
    var its := [Iteration(batch, false, {})];
    assert its[..0] == [];
    assert RunAll(names, amountOf, its) == Iterate(names, amountOf, RunAll(names, amountOf, []), its[0]);
  }
}
