/** What becomes of every purchase ever made, over runs in which the ring may be
    re-zeroed, clients restarted and count reads fail: delivered, or lost for one
    of four reasons; and when a purchase is delivered twice. */
module PurchaseAccount {
  import opened HookPurchase
  import opened RingLayout
  import opened PurchaseDelivery

  /** Purchases are named by their position in `all`.  `epochs` says how often the
      ring had been zeroed when each was made, `start` is where the current ring's
      log begins, everything before `read` is settled, and `out` holds the delivered
      positions in order of delivery.  What was not delivered was lost: hidden behind
      the count of an earlier ring, overwritten before a drain came, still unread
      when the ring was zeroed, or skipped by a new reader. */
  datatype Account = Account(all: seq<Record>, epochs: seq<nat>, epoch: nat, start: nat, read: nat, out: seq<nat>,
                             hidden: set<nat>, overwritten: set<nat>, unread: set<nat>, skipped: set<nat>)

  function Span(lo: nat, hi: nat): (r: set<nat>)
    ensures forall p: nat :: p in r <==> lo <= p < hi
    decreases hi
  {
    if hi <= lo then {} else Span(lo, hi - 1) + {hi - 1}
  }

  function Positions(lo: nat, hi: nat): (r: seq<nat>)
    requires lo <= hi
    ensures |r| == hi - lo && forall i :: 0 <= i < |r| ==> r[i] == lo + i
  {
    seq(hi - lo, i => lo + i)
  }

  /** A reader attaches to a ring with this log, and skips it. */
  function Attached(log: seq<Record>): Account {
    Account(log, seq(|log|, _ => 0), 0, 0, |log|, [], {}, {}, {}, Span(0, |log|))
  }

  /** How much of the ring's log the reader takes for known. */
  function Known(h: History): nat {
    if h.seen <= |h.log| then h.seen else |h.log|
  }

  /** Where the purchases begin that a drain delivers. */
  function First(h: History, a: Account): nat {
    a.start + Window(h)
  }

  /** What a drain hides by an old count ends here; the rest, up to `First`, it finds
      overwritten. */
  function HiddenEnd(h: History, a: Account): nat {
    if a.read < a.start + Known(h) then a.start + Known(h) else a.read
  }

  function Settle(a: Account, h: History, e: Event): Account {
    match e
    case Purchase(recptr, amount, wallet) =>
      a.(all := a.all + [Record(recptr, amount, wallet, (|h.log| + 1) % 0x1_0000_0000)], epochs := a.epochs + [a.epoch])
    case GameRuns => a
    case Drain =>
      var end := a.start + |h.log|;
      var found := Span(First(h, a), end);
      a.(out := a.out + Positions(First(h, a), end),
         hidden := (a.hidden + Span(a.read, HiddenEnd(h, a))) - found,
         overwritten := a.overwritten + Span(HiddenEnd(h, a), First(h, a)),
         skipped := a.skipped - found,
         read := end)
    case ReadFails => a
    case Attach => a.(skipped := a.skipped + Span(a.read, |a.all|), read := |a.all|)
    case Rezero =>
      a.(unread := a.unread + Span(a.read, |a.all|), epoch := a.epoch + 1, start := |a.all|, read := |a.all|)
  }

  function AccountOf(log: seq<Record>, es: seq<Event>): Account {
    if es == [] then Attached(log)
    else Settle(AccountOf(log, es[..|es| - 1]), Replay(log, es[..|es| - 1]), es[|es| - 1])
  }

  function Lost(a: Account): set<nat> {
    a.hidden + a.overwritten + a.unread + a.skipped
  }

  // ---- The promises ------------------------------------------------------

  /** Account and history speak of the same ring; the reader's count is that of the
      settled part, still that of an earlier ring, or forgotten. */
  ghost predicate Aligned(h: History, a: Account) {
    && a.start <= a.read <= |a.all| && |a.epochs| == |a.all| && h.log == a.all[a.start..]
    && (a.read == a.start || a.read == a.start + h.seen || h.seen == 0)
  }

  /** What was delivered are the purchases at the delivered positions, and none of
      them is younger than the last one. */
  ghost predicate Backed(h: History, a: Account) {
    && |h.out| == |a.out|
    && (forall i :: 0 <= i < |a.out| ==> a.out[i] < a.read <= |a.all| && h.out[i] == a.all[a.out[i]])
    && (forall i :: 0 <= i < |a.out| ==> a.out[i] <= a.out[|a.out| - 1])
  }

  /** Ordinals count from 1 within each epoch. */
  ghost predicate Numbered(a: Account) {
    && |a.epochs| == |a.all| && a.start <= |a.all|
    && (forall p :: 0 <= p < a.start ==> a.epochs[p] < a.epoch)
    && (forall p :: a.start <= p < |a.all| ==> a.epochs[p] == a.epoch && a.all[p].ordinal == p - a.start + 1)
    && (forall p, q :: 0 <= p < q < |a.all| ==>
          a.epochs[p] < a.epochs[q] || (a.epochs[p] == a.epochs[q] && a.all[p].ordinal < a.all[q].ordinal))
  }

  ghost predicate Delivered(a: Account, p: nat) {
    Among(a.out, p)
  }

  ghost predicate Among(out: seq<nat>, p: nat) {
    exists i :: 0 <= i < |out| && out[i] == p
  }

  /** Every settled purchase was delivered or is lost, not both, and lost for one
      reason only; an overwritten one had sixteen younger ones. */
  ghost predicate Accounted(a: Account) {
    && (forall p: nat :: p < a.read ==> (Delivered(a, p) <==> p !in Lost(a)))
    && (forall p :: p in Lost(a) ==> p < a.read)
    && (forall p :: p in a.hidden ==> p !in a.overwritten && p !in a.unread && p !in a.skipped)
    && (forall p :: p in a.overwritten ==> p !in a.unread && p !in a.skipped)
    && (forall p :: p in a.unread ==> p !in a.skipped && p < a.start)
    && (forall p :: p in a.overwritten ==> p < a.start || p + REC_COUNT < |a.all|)
  }

  ghost predicate Settled(h: History, a: Account) {
    Aligned(h, a) && Backed(h, a) && Numbered(a) && Accounted(a)
  }

  /** The ordinals of a ring's log, as `Holds` asks. */
  predicate FromOne(log: seq<Record>) {
    forall i :: 0 <= i < |log| ==> log[i].ordinal == i + 1
  }

  // ---- Each event keeps them ---------------------------------------------

  lemma PurchaseSettles(h: History, a: Account, e: Event)
    requires Settled(h, a) && e.Purchase? && |h.log| + 1 < 0x1_0000_0000
    ensures Settled(Next(h, e), Settle(a, h, e))
  {
    hide Accounted;
    PurchaseAccounts(h, a, e);
  }

  lemma PurchaseAccounts(h: History, a: Account, e: Event)
    requires Accounted(a) && e.Purchase?
    ensures Accounted(Settle(a, h, e))
  {
    var b := Settle(a, h, e);
    assert b.out == a.out && b.read == a.read && Lost(b) == Lost(a);
    assert forall p: nat :: Delivered(b, p) <==> Delivered(a, p);
    hide Delivered, Lost;
  }

  lemma RezeroSettles(h: History, a: Account)
    requires Settled(h, a)
    ensures Settled(Next(h, Rezero), Settle(a, h, Rezero))
  {
    hide Numbered, Accounted;
    RezeroNumbers(h, a);
    SkipAccounts(h, a, Rezero);
  }

  lemma RezeroNumbers(h: History, a: Account)
    requires Aligned(h, a) && Numbered(a)
    ensures Numbered(Settle(a, h, Rezero))
  {
    forall p | 0 <= p < |a.all|
      ensures a.epochs[p] < a.epoch + 1
    {
      assert p < a.start || a.epochs[p] == a.epoch;
    }
  }

  lemma AttachSettles(h: History, a: Account)
    requires Settled(h, a)
    ensures Settled(Next(h, Attach), Settle(a, h, Attach))
  {
    hide Numbered, Accounted;
    assert Numbered(Settle(a, h, Attach)) by { SameNumbers(a, Settle(a, h, Attach)); }
    SkipAccounts(h, a, Attach);
  }

  lemma SameNumbers(a: Account, b: Account)
    requires Numbered(a) && a.all == b.all && a.epochs == b.epochs && a.epoch == b.epoch && a.start == b.start
    ensures Numbered(b)
  {}

  /** What is still unread is lost to a re-zeroing, and to a new reader. */
  lemma SkipAccounts(h: History, a: Account, e: Event)
    requires Settled(h, a) && (e == Rezero || e == Attach)
    ensures Accounted(Settle(a, h, e))
  {
    var b := Settle(a, h, e);
    assert a.start <= a.read <= |a.all| && b.out == a.out;
    forall p: nat
      ensures Delivered(b, p) <==> Delivered(a, p)
      ensures Delivered(a, p) ==> p < a.read
    {}
    hide Delivered, Numbered, Backed, Aligned;
    assert forall p: nat ::
      p in a.hidden || p in a.overwritten || p in a.unread || p in a.skipped ==> p in Lost(a);
    forall p: nat | p < b.read
      ensures Delivered(b, p) <==> p !in Lost(b)
    {
      assert p in Lost(b) <==> p in Lost(a) || a.read <= p;
    }
  }

  lemma DrainSettles(h: History, a: Account)
    requires Settled(h, a)
    ensures Settled(Next(h, Drain), Settle(a, h, Drain))
  {
    hide Backed, Accounted, Numbered;
    DrainBacked(h, a);
    DrainAccounts(h, a);
    SameNumbers(a, Settle(a, h, Drain));
  }

  lemma DrainAccounts(h: History, a: Account)
    requires Settled(h, a)
    ensures Accounted(Settle(a, h, Drain))
  {
    hide Accounted, Delivered, Numbered;
    var b, w, x := Settle(a, h, Drain), First(h, a), HiddenEnd(h, a);
    forall p: nat
      ensures Delivered(b, p) <==> Delivered(a, p) || w <= p < b.read
      ensures Delivered(a, p) ==> p < a.read
    {
      DrainDelivers(h, a, p);
    }
    DrainSplits(a, b, w, x);
  }

  /** The window from w on is delivered, whatever it was before; what was unsettled
      below it is hidden up to x, and overwritten from there. */
  lemma DrainSplits(a: Account, b: Account, w: nat, x: nat)
    requires Accounted(a) && a.start <= a.read <= x && a.start <= w <= b.read == |a.all| && x <= b.read
    requires (x <= w || x == a.read) && w + REC_COUNT >= |a.all| && (w <= x || w + REC_COUNT == |a.all|)
    requires b.all == a.all && b.start == a.start && b.unread == a.unread
    requires b.hidden == (a.hidden + Span(a.read, x)) - Span(w, b.read) && b.skipped == a.skipped - Span(w, b.read)
    requires b.overwritten == a.overwritten + Span(x, w)
    requires forall p: nat :: Delivered(b, p) <==> Delivered(a, p) || w <= p < b.read
    requires forall p: nat :: Delivered(a, p) ==> p < a.read
    ensures Accounted(b)
  {
    hide Delivered;
    assert forall p: nat ::
      p in a.hidden || p in a.overwritten || p in a.unread || p in a.skipped ==> p in Lost(a);
    assert forall p: nat :: p in a.overwritten ==> p < w;
    forall p: nat | p < b.read
      ensures Delivered(b, p) <==> p !in Lost(b)
    {
      assert p in Lost(b) <==> p < w && (p in Lost(a) || a.read <= p);
    }
  }

  lemma DrainBacked(h: History, a: Account)
    requires Settled(h, a)
    ensures Backed(Next(h, Drain), Settle(a, h, Drain))
  {
    var b, k, w := Settle(a, h, Drain), |a.out|, First(h, a);
    var h' := Next(h, Drain);
    assert h'.out == h.out + h.log[Window(h)..];
    forall i | 0 <= i < |b.out|
      ensures b.out[i] < b.read && h'.out[i] == a.all[b.out[i]]
    {
      if i >= k {
        assert b.out[i] == w + (i - k) && h'.out[i] == h.log[Window(h) + (i - k)];
      }
    }
  }

  lemma DrainDelivers(h: History, a: Account, p: nat)
    requires Settled(h, a)
    ensures var b := Settle(a, h, Drain); Delivered(b, p) <==> Delivered(a, p) || First(h, a) <= p < b.read
    ensures Delivered(a, p) ==> p < a.read
  {
    var b, k, w := Settle(a, h, Drain), |a.out|, First(h, a);
    if Delivered(a, p) {
      var i :| 0 <= i < k && a.out[i] == p;
      assert b.out[i] == p;
    }
    if w <= p < b.read {
      assert b.out[k + (p - w)] == p;
    }
  }

  lemma EventSettles(h: History, a: Account, e: Event)
    requires Settled(h, a) && |h.log| + 1 < 0x1_0000_0000
    ensures Settled(Next(h, e), Settle(a, h, e))
  {
    match e
    case Purchase(_, _, _) => hide Settled; PurchaseSettles(h, a, e);
    case GameRuns =>
    case Drain => hide Settled; DrainSettles(h, a);
    case ReadFails =>
    case Attach => hide Settled; AttachSettles(h, a);
    case Rezero => hide Settled; RezeroSettles(h, a);
  }

  lemma {:induction false} LogLength(log: seq<Record>, es: seq<Event>)
    ensures |Replay(log, es).log| <= |log| + |es|
  {
    if es != [] {
      LogLength(log, es[..|es| - 1]);
    }
  }

  /** Over every run, from any ring: every settled purchase was delivered or is in
      exactly one of the lost sets, and what was delivered are those purchases. */
  lemma {:induction false} EveryPurchaseSettled(log: seq<Record>, es: seq<Event>)
    requires FromOne(log) && |log| + |es| < 0x1_0000_0000
    ensures Settled(Replay(log, es), AccountOf(log, es))
  {
    if es == [] {
      AttachedSettled(log);
    } else {
      hide Settled, Next, Settle;
      var n := |es| - 1;
      EveryPurchaseSettled(log, es[..n]);
      LogLength(log, es[..n]);
      EventSettles(Replay(log, es[..n]), AccountOf(log, es[..n]), es[n]);
    }
  }

  lemma AttachedSettled(log: seq<Record>)
    requires FromOne(log)
    ensures Settled(Replay(log, []), AccountOf(log, []))
  {
    var a := Attached(log);
    assert Lost(a) == Span(0, |log|);
    assert log[0..] == log;
  }

  // ---- Delivered twice ---------------------------------------------------

  ghost predicate NoRepeat(out: seq<nat>) {
    forall i, j :: 0 <= i < j < |out| ==> out[i] != out[j]
  }

  ghost predicate Increasing(out: seq<nat>) {
    forall i, j :: 0 <= i < j < |out| ==> out[i] < out[j]
  }

  /** The drain starts behind the last purchase that was delivered. */
  predicate Fresh(h: History, a: Account) {
    a.out == [] || a.out[|a.out| - 1] < First(h, a)
  }

  /** If event i is a drain, it is fresh. */
  predicate FreshAt(log: seq<Record>, es: seq<Event>, i: nat)
    requires i < |es|
  {
    es[i] == Drain ==> Fresh(Replay(log, es[..i]), AccountOf(log, es[..i]))
  }

  lemma EventRepeats(h: History, a: Account, e: Event)
    requires Settled(h, a)
    ensures Increasing(a.out) && (e == Drain ==> Fresh(h, a)) ==> Increasing(Settle(a, h, e).out)
    ensures NoRepeat(Settle(a, h, e).out) ==> NoRepeat(a.out) && (e == Drain ==> Fresh(h, a))
  {
    hide Numbered, Accounted;
    var b := Settle(a, h, e);
    assert forall i :: 0 <= i < |a.out| ==> b.out[i] == a.out[i];
    if e == Drain && !Fresh(h, a) {
      var k, last := |a.out|, a.out[|a.out| - 1];
      assert First(h, a) <= last < a.start + |h.log|;
      assert b.out[k - 1] == last == b.out[k + (last - First(h, a))];
    }
  }

  predicate AllFresh(log: seq<Record>, es: seq<Event>) {
    forall i :: 0 <= i < |es| ==> FreshAt(log, es, i)
  }

  lemma FreshSnoc(log: seq<Record>, es: seq<Event>)
    requires es != []
    ensures var n := |es| - 1; AllFresh(log, es) <==> AllFresh(log, es[..n]) && FreshAt(log, es, n)
  {
    hide FreshAt;
    var n := |es| - 1;
    forall i | 0 <= i < n
      ensures FreshAt(log, es[..n], i) == FreshAt(log, es, i)
    {
      SamePrefix(log, es, n, i);
    }
  }

  lemma SamePrefix(log: seq<Record>, es: seq<Event>, n: nat, i: nat)
    requires i < n <= |es|
    ensures FreshAt(log, es[..n], i) == FreshAt(log, es, i)
  {
    assert es[..n][..i] == es[..i];
  }

  lemma {:induction false} RepeatsOnlyStale(log: seq<Record>, es: seq<Event>)
    requires FromOne(log) && |log| + |es| < 0x1_0000_0000
    ensures AllFresh(log, es) ==> Increasing(AccountOf(log, es).out)
    ensures NoRepeat(AccountOf(log, es).out) ==> AllFresh(log, es)
  {
    if es != [] {
      hide Settled, Settle, Fresh, Increasing, NoRepeat, AllFresh;
      var n := |es| - 1;
      RepeatsOnlyStale(log, es[..n]);
      EveryPurchaseSettled(log, es[..n]);
      EventRepeats(Replay(log, es[..n]), AccountOf(log, es[..n]), es[n]);
      FreshSnoc(log, es);
    }
  }

  /** Over every run, whatever is zeroed, restarted or fails: no purchase is
      delivered twice, and then the deliveries keep the order of the purchases, if
      and only if every drain starts behind the last purchase delivered before. */
  lemma NoRepeatIff(log: seq<Record>, es: seq<Event>)
    requires FromOne(log) && |log| + |es| < 0x1_0000_0000
    ensures NoRepeat(AccountOf(log, es).out) <==> AllFresh(log, es)
    ensures NoRepeat(AccountOf(log, es).out) <==> Increasing(AccountOf(log, es).out)
  {
    hide AllFresh;
    RepeatsOnlyStale(log, es);
  }

  /** Event i is a drain that finds purchase p in its window. */
  predicate FoundAt(log: seq<Record>, es: seq<Event>, i: nat, p: nat)
    requires i < |es|
  {
    var h, a := Replay(log, es[..i]), AccountOf(log, es[..i]);
    es[i] == Drain && First(h, a) <= p < a.start + |h.log|
  }

  predicate FoundIn(log: seq<Record>, es: seq<Event>, p: nat) {
    exists i :: 0 <= i < |es| && FoundAt(log, es, i, p)
  }

  lemma FoundSnoc(log: seq<Record>, es: seq<Event>, p: nat)
    requires es != []
    ensures var n := |es| - 1; FoundIn(log, es, p) <==> FoundIn(log, es[..n], p) || FoundAt(log, es, n, p)
  {
    var n := |es| - 1;
    forall i | 0 <= i < n
      ensures FoundAt(log, es[..n], i, p) == FoundAt(log, es, i, p)
    {
      assert es[..n][..i] == es[..i];
    }
    hide FoundAt;
    if i :| 0 <= i < n && FoundAt(log, es[..n], i, p) {
      assert FoundAt(log, es, i, p);
    }
    if i :| 0 <= i < n && FoundAt(log, es, i, p) {
      assert FoundAt(log, es[..n], i, p);
    }
  }

  /** Over every run, failed reads included: a settled purchase is lost if and only
      if no drain of the run found it in its window. */
  lemma {:induction false} LostIff(log: seq<Record>, es: seq<Event>, p: nat)
    requires FromOne(log) && |log| + |es| < 0x1_0000_0000
    ensures Delivered(AccountOf(log, es), p) <==> FoundIn(log, es, p)
    ensures p < AccountOf(log, es).read ==> (p in Lost(AccountOf(log, es)) <==> !FoundIn(log, es, p))
  {
    EveryPurchaseSettled(log, es);
    hide Aligned, Backed, Numbered, FoundIn, Next, First, Window;
    if es == [] {
      assert !FoundIn(log, es, p) by { NothingFound(log, p); }
    } else {
      var n := |es| - 1;
      LostIff(log, es[..n], p);
      EveryPurchaseSettled(log, es[..n]);
      FoundSnoc(log, es, p);
      if es[n] == Drain {
        DrainDelivers(Replay(log, es[..n]), AccountOf(log, es[..n]), p);
      }
    }
  }

  lemma NothingFound(log: seq<Record>, p: nat)
    ensures !FoundIn(log, [], p)
  {}

  /** Every count read of the run succeeded. */
  predicate ReadsSucceed(es: seq<Event>) {
    forall i :: 0 <= i < |es| ==> !es[i].ReadFails?
  }

  /** With successful reads the reader's count is that of the settled part of the
      ring, or still that of an earlier ring. */
  lemma {:induction false} CountKept(log: seq<Record>, es: seq<Event>)
    requires FromOne(log) && |log| + |es| < 0x1_0000_0000 && ReadsSucceed(es)
    ensures var a := AccountOf(log, es); a.read == a.start || a.read == a.start + Replay(log, es).seen
  {
    if es != [] {
      hide Backed, Numbered, Accounted;
      CountKept(log, es[..|es| - 1]);
      EveryPurchaseSettled(log, es[..|es| - 1]);
    }
  }

  /** Exactly once: over every run whose count reads succeed, however often the ring
      is zeroed or a client restarted, every settled purchase was delivered, once and
      in order, or is in exactly one of the lost sets. */
  lemma ExactlyOnce(log: seq<Record>, es: seq<Event>)
    requires FromOne(log) && |log| + |es| < 0x1_0000_0000 && ReadsSucceed(es)
    ensures Settled(Replay(log, es), AccountOf(log, es)) && Increasing(AccountOf(log, es).out)
  {
    hide Settled, Increasing, FreshAt;
    EveryPurchaseSettled(log, es);
    forall i | 0 <= i < |es|
      ensures FreshAt(log, es, i)
    {
      ReadIsFresh(log, es, i);
    }
    NoRepeatIff(log, es);
  }

  lemma ReadIsFresh(log: seq<Record>, es: seq<Event>, i: nat)
    requires FromOne(log) && |log| + |es| < 0x1_0000_0000 && ReadsSucceed(es) && i < |es|
    ensures FreshAt(log, es, i)
  {
    hide Numbered, Accounted;
    EveryPurchaseSettled(log, es[..i]);
    CountKept(log, es[..i]);
  }

  // ---- When nothing is lost ----------------------------------------------

  /** Every purchase since the first reader attached, as far as it is settled, was
      delivered. */
  predicate Complete(log: seq<Record>, a: Account) {
    |log| <= a.read && a.out == Positions(|log|, a.read)
  }

  /** A drain loses nothing if at most sixteen purchases of this ring are unread and
      the reader's count is of this ring (or the ring is empty); a re-zeroing and a
      new reader lose nothing if all was read. */
  predicate Harmless(h: History, a: Account, e: Event) {
    match e
    case Drain => |h.log| - (a.read - a.start) <= REC_COUNT && (a.read == a.start + h.seen || h.log == [])
    case Rezero => a.read == |a.all|
    case Attach => a.read == |a.all|
    case _ => true
  }

  predicate HarmlessAt(log: seq<Record>, es: seq<Event>, i: nat)
    requires i < |es|
  {
    Harmless(Replay(log, es[..i]), AccountOf(log, es[..i]), es[i])
  }

  lemma EventLoses(h: History, a: Account, e: Event)
    requires Settled(h, a) && !e.ReadFails? && (a.read == a.start || a.read == a.start + h.seen)
    ensures Lost(Settle(a, h, e)) == Lost(a) <==> Harmless(h, a, e)
    ensures Lost(a) <= Lost(Settle(a, h, e))
  {
    hide Backed, Numbered, Delivered;
    var b := Settle(a, h, e);
    match e
    case Purchase(_, _, _) =>
    case GameRuns =>
    case ReadFails =>
    case Drain =>
      DrainLoses(h, a);
      if a.read < First(h, a) {
        assert a.read in Lost(b) && a.read !in Lost(a);
      }
    case Attach =>
      if a.read < |a.all| {
        assert a.read in Lost(b) && a.read !in Lost(a);
      }
    case Rezero =>
      if a.read < |a.all| {
        assert a.read in Lost(b) && a.read !in Lost(a);
      }
  }

  lemma DrainLoses(h: History, a: Account)
    requires Settled(h, a) && (a.read == a.start || a.read == a.start + h.seen)
    ensures a.read <= First(h, a) && Lost(Settle(a, h, Drain)) == Lost(a) + Span(a.read, First(h, a))
  {
    hide Backed, Numbered, Delivered;
    var b, w, x := Settle(a, h, Drain), First(h, a), HiddenEnd(h, a);
    assert a.read <= x <= w;
    hide First, HiddenEnd, Aligned;
    forall p: nat
      ensures p in Lost(b) <==> p in Lost(a) || a.read <= p < w
    {
      assert p in a.hidden || p in a.skipped ==> p in Lost(a);
    }
  }

  lemma {:induction false} LosesNothingIff(log: seq<Record>, es: seq<Event>)
    requires FromOne(log) && |log| + |es| < 0x1_0000_0000 && ReadsSucceed(es)
    ensures Span(0, |log|) <= Lost(AccountOf(log, es))
    ensures Lost(AccountOf(log, es)) == Span(0, |log|) <==> forall i :: 0 <= i < |es| ==> HarmlessAt(log, es, i)
  {
    if es != [] {
      hide Settled, Next, Settle, Lost, Harmless;
      var n := |es| - 1;
      LosesNothingIff(log, es[..n]);
      EveryPurchaseSettled(log, es[..n]);
      CountKept(log, es[..n]);
      EventLoses(Replay(log, es[..n]), AccountOf(log, es[..n]), es[n]);
      forall i | 0 <= i < n
        ensures HarmlessAt(log, es[..n], i) == HarmlessAt(log, es, i)
      {
        assert es[..n][..i] == es[..i];
      }
      assert Lost(AccountOf(log, es)) == Span(0, |log|)
        <==> Lost(AccountOf(log, es[..n])) == Span(0, |log|) && HarmlessAt(log, es, n);
    } else {
      assert Lost(Attached(log)) == Span(0, |log|);
    }
  }

  /** Everything settled was delivered if and only if every drain, re-zeroing and
      restart of the run was harmless. */
  lemma CompleteIff(log: seq<Record>, es: seq<Event>)
    requires FromOne(log) && |log| + |es| < 0x1_0000_0000 && ReadsSucceed(es)
    ensures Complete(log, AccountOf(log, es)) <==> forall i :: 0 <= i < |es| ==> HarmlessAt(log, es, i)
  {
    hide HarmlessAt;
    LosesNothingIff(log, es);
    ExactlyOnce(log, es);
    SettledBehind(log, es);
    CompleteIffNoneLost(log, Replay(log, es), AccountOf(log, es));
  }

  lemma {:induction false} SettledBehind(log: seq<Record>, es: seq<Event>)
    requires FromOne(log) && |log| + |es| < 0x1_0000_0000
    ensures AccountOf(log, es).read >= |log|
  {
    if es != [] {
      hide Backed, Numbered, Accounted;
      SettledBehind(log, es[..|es| - 1]);
      EveryPurchaseSettled(log, es[..|es| - 1]);
    }
  }

  lemma CompleteIffNoneLost(log: seq<Record>, h: History, a: Account)
    requires Settled(h, a) && Increasing(a.out) && a.read >= |log| && Span(0, |log|) <= Lost(a)
    ensures Complete(log, a) <==> Lost(a) == Span(0, |log|)
  {
    if Complete(log, a) {
      forall p: nat | p in Lost(a)
        ensures p < |log|
      {
        if |log| <= p < a.read {
          assert a.out[p - |log|] == p;
          assert Delivered(a, p);
        }
      }
      assert Lost(a) == Span(0, |log|);
    } else if Lost(a) == Span(0, |log|) {
      forall p: nat | |log| <= p < a.read
        ensures Among(a.out, p)
      {
        assert Delivered(a, p);
      }
      forall i | 0 <= i < |a.out|
        ensures a.out[i] >= |log|
      {
        assert Delivered(a, a.out[i]);
      }
      AllInOrder(a.out, |log|, a.read);
    }
  }

  /** Strictly increasing numbers from lo below n that miss none are lo, ..., n - 1. */
  lemma {:induction false} AllInOrder(out: seq<nat>, lo: nat, n: nat)
    requires lo <= n && Increasing(out)
    requires forall i :: 0 <= i < |out| ==> lo <= out[i] < n
    requires forall p: nat :: lo <= p < n ==> Among(out, p)
    ensures out == Positions(lo, n)
  {
    if out == [] {
      assert n > lo ==> Among(out, lo);
    } else {
      assert out[0] < n;
      assert Among(out, n - 1);
      var i :| 0 <= i < |out| && out[i] == n - 1;
      assert i == |out| - 1;
      forall p: nat | lo <= p < n - 1
        ensures Among(out[..i], p)
      {
        assert Among(out, p);
        var j :| 0 <= j < |out| && out[j] == p;
        assert out[..i][j] == p;
      }
      AllInOrder(out[..i], lo, n - 1);
      assert out == out[..i] + [n - 1];
    }
  }

  /** Memory, trampoline and readers together, from any ring and over every run. */
  lemma DeliveryExactlyOnce(log: seq<Record>, ss: seq<System>, es: seq<Event>)
    requires IsRun(ss, es) && |log| + |es| < 0x1_0000_0000
    requires Holds(ss[0].mem, log) && ss[0].seen == |log| && ss[0].out == [] && ss[0].reports == []
    ensures Reported(ss, ss[|es|].reports, Replay(log, es).out)
    ensures ss[|es|].out == Replay(log, es).out && Settled(Replay(log, es), AccountOf(log, es))
    ensures NoRepeat(AccountOf(log, es).out) <==> AllFresh(log, es)
    ensures ReadsSucceed(es) ==>
              && Increasing(AccountOf(log, es).out)
              && (Complete(log, AccountOf(log, es)) <==> forall i :: 0 <= i < |es| ==> HarmlessAt(log, es, i))
  {
    assert FromOne(log);
    hide HarmlessAt, AllFresh, Settled, Increasing, NoRepeat, Holds, IsRun, Reported;
    RunDelivers(log, ss, es);
    EveryPurchaseSettled(log, es);
    NoRepeatIff(log, es);
    if ReadsSucceed(es) {
      ExactlyOnce(log, es);
      CompleteIff(log, es);
    }
  }

  // ---- Re-zeroing --------------------------------------------------------

  /** The first drain of a re-zeroed ring brings the reader back in step.  It
      delivers nothing, and hides all that ring's purchases so far, exactly if the
      count has not passed what was seen before. */
  lemma FirstDrainIff(h: History, a: Account)
    requires Settled(h, a) && a.read == a.start && h.log != []
    ensures var b := Settle(a, h, Drain);
            && b.read == b.start + Next(h, Drain).seen
            && (b.out == a.out <==> |h.log| <= h.seen)
            && (b.hidden == a.hidden + Span(a.start, |a.all|) <==> |h.log| <= h.seen)
  {
    var b := Settle(a, h, Drain);
    assert |b.out| == |a.out| + |h.log| - Window(h);
    if h.seen < |h.log| {
      assert |a.all| - 1 in Span(a.start, |a.all|) && |a.all| - 1 !in b.hidden;
    } else {
      assert Span(First(h, a), a.start + |h.log|) == {};
    }
  }

  /** Runs of one reader without re-zeroing and with successful reads, from an empty
      ring: the overwritten purchases are the only ones lost. */
  predicate Undisturbed(es: seq<Event>) {
    forall i :: 0 <= i < |es| ==> es[i].Purchase? || es[i] == GameRuns || es[i] == Drain
  }

  lemma {:induction false} OnlyOverwritten(es: seq<Event>)
    requires Undisturbed(es) && |es| < 0x1_0000_0000
    ensures var a := AccountOf([], es);
            && a.start == 0 && a.hidden == {} && a.unread == {} && a.skipped == {}
            && a.all == Replay([], es).log && a.read == Replay([], es).seen <= |a.all|
  {
    if es != [] {
      var n := |es| - 1;
      OnlyOverwritten(es[..n]);
      if es[n] == Drain {
        assert HiddenEnd(Replay([], es[..n]), AccountOf([], es[..n])) == AccountOf([], es[..n]).read;
      }
    }
  }

  /** Every drain found at most sixteen unread purchases. */
  predicate Timely(es: seq<Event>) {
    forall i :: 0 <= i < |es| && es[i] == Drain ==> |Replay([], es[..i]).log| - Replay([], es[..i]).seen <= REC_COUNT
  }

  lemma CompleteIffTimely(es: seq<Event>)
    requires Undisturbed(es) && |es| < 0x1_0000_0000
    ensures AccountOf([], es).out == Positions(0, AccountOf([], es).read) <==> Timely(es)
  {
    hide Replay, AccountOf;
    CompleteIff([], es);
    forall i | 0 <= i < |es|
      ensures HarmlessAt([], es, i)
              <==> es[i] != Drain || |Replay([], es[..i]).log| - Replay([], es[..i]).seen <= REC_COUNT
    {
      OnlyOverwritten(es[..i]);
    }
  }

  function ReplayFrom(h: History, es: seq<Event>): History {
    if es == [] then h else Next(ReplayFrom(h, es[..|es| - 1]), es[|es| - 1])
  }

  predicate AllPurchases(es: seq<Event>) {
    forall i :: 0 <= i < |es| ==> es[i].Purchase?
  }

  lemma {:induction false} PurchasesOnly(h: History, es: seq<Event>)
    requires AllPurchases(es)
    ensures var t := ReplayFrom(h, es);
            t.seen == h.seen && t.out == h.out && |t.log| == |h.log| + |es|
  {
    if es != [] {
      PurchasesOnly(h, es[..|es| - 1]);
    }
  }

  /** Three purchases after a re-zeroing, with five seen before, never arrive. */
  lemma RezeroLosesPurchases(h: History, p: Event)
    requires h.seen == 5 && p.Purchase?
    ensures Next(ReplayFrom(Next(h, Rezero), [p, p, p]), Drain).out == h.out
  {
    PurchasesOnly(Next(h, Rezero), [p, p, p]);
    var t := ReplayFrom(Next(h, Rezero), [p, p, p]);
    assert t.log[Window(t)..] == [];
  }

  // ---- A failed count read -----------------------------------------------

  /** Runs of one reader without re-zeroing, from an empty ring. */
  predicate OneRing(es: seq<Event>) {
    forall i :: 0 <= i < |es| ==> es[i] != Rezero && es[i] != Attach
  }

  /** In such a run a drain is fresh exactly if the reader's count is that of the
      settled part, or the ring has moved on by sixteen since. */
  lemma FreshIff(es: seq<Event>)
    requires OneRing(es) && |es| < 0x1_0000_0000
    ensures var h, a := Replay([], es), AccountOf([], es);
            Fresh(h, a) <==> h.seen == a.read || a.read + REC_COUNT <= |h.log|
  {
    LastIsRead(es);
    EveryPurchaseSettled([], es);
  }

  lemma {:induction false} LastIsRead(es: seq<Event>)
    requires OneRing(es) && |es| < 0x1_0000_0000
    ensures var h, a := Replay([], es), AccountOf([], es);
            && a.start == 0 && |h.log| == |a.all| && a.read <= |a.all| && (h.seen == a.read || h.seen == 0)
            && (if a.read == 0 then a.out == [] else a.out != [] && a.out[|a.out| - 1] == a.read - 1)
  {
    if es != [] {
      LastIsRead(es[..|es| - 1]);
    }
  }

  /** A failed count read between two drains: the second delivers the last sixteen
      purchases of the log again, so nothing is repeated if and only if the log was
      empty. */
  lemma OfflineRedelivers(es: seq<Event>)
    requires Undisturbed(es) && |es| < 0x1_0000_0000 && es != [] && es[|es| - 1] == Drain
    ensures var h := Replay([], es);
            var h' := Next(Next(h, ReadFails), Drain);
            && h'.out == h.out + h.log[if |h.log| >= REC_COUNT then |h.log| - REC_COUNT else 0..]
            && (h'.out == h.out <==> h.log == [])
            && (h.log != [] ==> exists i, j :: 0 <= i < j < |h'.out| && h'.out[i] == h'.out[j])
  {
    hide Settled, AccountOf, Undisturbed;
    EveryPurchaseSettled([], es);
    OnlyOverwritten(es);
    assert Replay([], es).seen == |Replay([], es).log|;
    ForgottenRedelivers(Replay([], es), AccountOf([], es));
  }

  lemma ForgottenRedelivers(h: History, a: Account)
    requires Settled(h, a) && h.seen == |h.log| && a.start == 0 && a.read == |a.all|
    requires a.hidden == {} && a.unread == {} && a.skipped == {}
    ensures var h' := Next(Next(h, ReadFails), Drain);
            && h'.out == h.out + h.log[if |h.log| >= REC_COUNT then |h.log| - REC_COUNT else 0..]
            && (h'.out == h.out <==> h.log == [])
            && (h.log != [] ==> exists i, j :: 0 <= i < j < |h'.out| && h'.out[i] == h'.out[j])
  {
    hide Numbered;
    var h' := Next(Next(h, ReadFails), Drain);
    var more := h.log[if |h.log| >= REC_COUNT then |h.log| - REC_COUNT else 0..];
    assert h'.out == h.out + more;
    if h.log != [] {
      var p := |h.log| - 1;
      assert p !in Lost(a) && Delivered(a, p);
      var i :| 0 <= i < |a.out| && a.out[i] == p;
      assert more[|more| - 1] == h.log[p];
      assert h'.out[i] == h.log[p] == h'.out[|h'.out| - 1];
    }
  }
}
