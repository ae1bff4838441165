/** Purchase detection from wallet and earnings, over whole runs of the game,
    the money grants and the polls. */
module MoneyConservation {
  import opened GameWatcher
  import opened Options

  datatype Event =
    | Earn(amount: nat)       // wallet and career earnings together
    | Spend(amount: nat)
    | Grant(total: nat)       // apply_money_total
    | Catalog(readable: bool) // the catalog pointer becomes valid or invalid
    | Poll

  /** The game, the runtime's floor, the watcher, and the events it emitted.  The
      `polled...` fields are what the game had earned and spent at the last poll,
      and whether the catalog could be read then. */
  datatype System = System(wallet: int, earned: int, spent: int, readable: bool, floor: nat, watch: Watch,
                           polledEarned: int, polledSpent: int, polledReadable: bool, events: seq<GameEvent>)

  /** Career earnings as the catalog shows them: 0 while it cannot be read. */
  function Visible(s: System): int {
    if s.readable then s.earned else 0
  }

  /** Amounts the 32-bit words can hold. */
  predicate Enabled(s: System, e: Event) {
    match e
    case Earn(x) => s.wallet + x < 0x1_0000_0000 && s.earned + x < 0x1_0000_0000
    case Spend(x) => x <= s.wallet
    case Grant(total) => total < 0x1_0000_0000
    case _ => true
  }

  function Next(s: System, e: Event): System
    requires s.watch.lastMoney.Some?
  {
    match e
    case Earn(x) => s.(wallet := s.wallet + x, earned := s.earned + x)
    case Spend(x) => s.(wallet := s.wallet - x, spent := s.spent + x)
    case Grant(total) =>
      var floor := if s.floor < total then total else s.floor;
      if s.wallet < floor
      then s.(floor := floor, wallet := floor, watch := s.watch.(injected := s.watch.injected + floor - s.wallet))
      else s.(floor := floor)
    case Catalog(readable) => s.(readable := readable)
    case Poll =>
      s.(watch := AfterPoll(s.watch, s.wallet, Visible(s)), polledEarned := s.earned, polledSpent := s.spent,
         polledReadable := s.readable, events := s.events + MoneyEvents(s.watch, s.wallet, Visible(s)))
  }

  /** Right after the baseline poll of `MC3ApiRuntime.__init__`. */
  predicate Baseline(s: System) {
    && 0 <= s.wallet < 0x1_0000_0000 && 0 <= s.earned < 0x1_0000_0000 && s.spent == 0 && s.floor == 0
    && s.watch == Watch(Some(s.wallet), Visible(s), 0, 0)
    && s.polledEarned == s.earned && s.polledSpent == 0 && s.polledReadable == s.readable && s.events == []
  }

  function RunAll(s: System, es: seq<Event>): (t: System)
    requires s.watch.lastMoney.Some?
    ensures t.watch.lastMoney.Some?
  {
    if es == [] then s else Next(RunAll(s, es[..|es| - 1]), es[|es| - 1])
  }

  predicate AllEnabled(s: System, es: seq<Event>)
    requires s.watch.lastMoney.Some?
  {
    forall i :: 0 <= i < |es| ==> Enabled(RunAll(s, es[..i]), es[i])
  }

  /** Money neither appears nor disappears between polls: the wallet has moved by
      what was earned, spent and granted since. */
  predicate Books(s: System) {
    && s.watch.lastMoney.Some? && 0 <= s.polledEarned <= s.earned && s.spent >= s.polledSpent
    && 0 <= s.wallet < 0x1_0000_0000 && s.floor < 0x1_0000_0000
    && s.watch.lastEarnings == (if s.polledReadable then s.polledEarned else 0)
    && s.wallet == s.watch.lastMoney.value + (s.earned - s.polledEarned) - (s.spent - s.polledSpent) + s.watch.injected
  }

  lemma {:induction false} BooksBalance(s: System, es: seq<Event>)
    requires Baseline(s) && AllEnabled(s, es)
    ensures Books(RunAll(s, es))
  {
    if es != [] {
      hide Books, Next, Enabled;
      var n := |es| - 1;
      assert forall i :: 0 <= i < n ==> es[..n][..i] == es[..i];
      BooksBalance(s, es[..n]);
      NextKeepsBooks(RunAll(s, es[..n]), es[n]);
    }
  }

  lemma NextKeepsBooks(s: System, e: Event)
    requires Books(s) && Enabled(s, e)
    ensures Books(Next(s, e))
  {}

  // ---- What one poll reports ---------------------------------------------

  /** What a poll adds to the true spending: the earnings of earlier polls when the
      catalog comes back, and less the earnings it cannot see while it is away. */
  function Misread(s: System): int {
    if s.readable then (if s.polledReadable then 0 else s.polledEarned)
    else (if s.polledReadable then 0 else s.polledEarned) - s.earned
  }

  lemma PollReports(s: System)
    requires Books(s)
    ensures Spent(s.watch, s.wallet, Visible(s)) == (s.spent - s.polledSpent) + Misread(s)
  {}

  function Amounts(events: seq<GameEvent>): int {
    if events == [] then 0
    else Amounts(events[..|events| - 1])
         + if events[|events| - 1].PurchaseDetected? then events[|events| - 1].amount else 0
  }

  function Deltas(events: seq<GameEvent>): int {
    if events == [] then 0
    else Deltas(events[..|events| - 1])
         + if events[|events| - 1].MoneyChanged? then events[|events| - 1].new_ - events[|events| - 1].old_ else 0
  }

  lemma {:induction false} SumsConcat(a: seq<GameEvent>, b: seq<GameEvent>)
    ensures Amounts(a + b) == Amounts(a) + Amounts(b) && Deltas(a + b) == Deltas(a) + Deltas(b)
  {
    if b == [] {
      assert a + b == a;
    } else {
      SumsConcat(a, b[..|b| - 1]);
      assert (a + b)[..|a + b| - 1] == a + b[..|b| - 1];
    }
  }

  lemma PollSums(w: Watch, money: int, earnings: int)
    requires w.lastMoney.Some?
    ensures Amounts(MoneyEvents(w, money, earnings))
            == if Spent(w, money, earnings) > 0 then Spent(w, money, earnings) else 0
    ensures Deltas(MoneyEvents(w, money, earnings)) == money - w.lastMoney.value
  {
    var a := if money != w.lastMoney.value then [MoneyChanged(w.lastMoney.value, money)] else [];
    var b := if Spent(w, money, earnings) > 0
             then [PurchaseDetected(Spent(w, money, earnings), w.lastMoney.value, money, w.purchases + 1)] else [];
    SumsConcat(a, b);
    assert a != [] ==> a[..0] == [];
    assert b != [] ==> b[..0] == [];
  }

  /** The catalog shows this poll all it has to: it can be read now and could be at
      the last poll, or there was nothing to misread. */
  predicate SeesEarnings(s: System) {
    if s.readable then s.polledReadable || s.polledEarned == 0
    else s.spent == s.polledSpent || (if s.polledReadable then s.earned == 0 else s.earned == s.polledEarned)
  }

  /** A poll reports exactly the spending since the last one if and only if the
      catalog shows it the earnings. */
  lemma PollExactIff(s: System)
    requires Books(s)
    ensures Amounts(MoneyEvents(s.watch, s.wallet, Visible(s))) == s.spent - s.polledSpent <==> SeesEarnings(s)
  {
    PollReports(s);
    PollSums(s.watch, s.wallet, Visible(s));
  }

  /** The same for whole runs: every poll is exact if and only if every poll sees
      the earnings. */
  lemma EveryPollExactIff(s: System, es: seq<Event>)
    requires Baseline(s) && AllEnabled(s, es)
    ensures (forall i :: 0 <= i < |es| && es[i] == Poll ==> ExactAt(s, es, i))
            <==> forall i :: 0 <= i < |es| && es[i] == Poll ==> SeesEarnings(RunAll(s, es[..i]))
  {
    forall i | 0 <= i < |es|
      ensures ExactAt(s, es, i) <==> SeesEarnings(RunAll(s, es[..i]))
    {
      assert forall j :: 0 <= j < i ==> es[..i][..j] == es[..j];
      BooksBalance(s, es[..i]);
      PollExactIff(RunAll(s, es[..i]));
    }
  }

  /** What a poll at position i of the run reports is what was spent since the last one. */
  predicate ExactAt(s: System, es: seq<Event>, i: nat)
    requires s.watch.lastMoney.Some? && i <= |es|
  {
    var t := RunAll(s, es[..i]);
    Amounts(MoneyEvents(t.watch, t.wallet, Visible(t))) == t.spent - t.polledSpent
  }

  // ---- Whole runs --------------------------------------------------------

  /** The catalog can be read at every poll. */
  predicate ReadableAtPolls(s: System, es: seq<Event>)
    requires s.watch.lastMoney.Some?
  {
    s.readable && forall i :: 0 <= i < |es| && es[i] == Poll ==> RunAll(s, es[..i]).readable
  }

  predicate NumberedFrom1(events: seq<GameEvent>, count: nat) {
    && CountPurchases(events) == count
    && forall i :: 0 <= i < |events| && events[i].PurchaseDetected? ==>
         events[i].ordinal == CountPurchases(events[..i]) + 1 && events[i].amount > 0
  }

  function CountPurchases(events: seq<GameEvent>): nat {
    if events == [] then 0
    else CountPurchases(events[..|events| - 1]) + if events[|events| - 1].PurchaseDetected? then 1 else 0
  }

  lemma NumberedSnoc(events: seq<GameEvent>, count: nat, e: GameEvent)
    requires NumberedFrom1(events, count)
    requires e.MoneyChanged? || (e.PurchaseDetected? && e.ordinal == count + 1 && e.amount > 0)
    ensures NumberedFrom1(events + [e], if e.PurchaseDetected? then count + 1 else count)
  {
    var es := events + [e];
    assert es[..|es| - 1] == events;
    forall i | 0 <= i < |es| && es[i].PurchaseDetected?
      ensures es[i].ordinal == CountPurchases(es[..i]) + 1 && es[i].amount > 0
    {
      assert es[..i] == events[..i];
    }
  }

  lemma PollNumbers(events: seq<GameEvent>, w: Watch, money: int, earnings: int)
    requires w.lastMoney.Some? && NumberedFrom1(events, w.purchases)
    ensures NumberedFrom1(events + MoneyEvents(w, money, earnings), AfterPoll(w, money, earnings).purchases)
  {
    hide NumberedFrom1;
    var es := events;
    if money != w.lastMoney.value {
      NumberedSnoc(events, w.purchases, MoneyChanged(w.lastMoney.value, money));
      es := events + [MoneyChanged(w.lastMoney.value, money)];
    }
    assert NumberedFrom1(es, w.purchases);
    if Spent(w, money, earnings) > 0 {
      var p := PurchaseDetected(Spent(w, money, earnings), w.lastMoney.value, money, w.purchases + 1);
      NumberedSnoc(es, w.purchases, p);
      assert events + MoneyEvents(w, money, earnings) == es + [p];
    } else {
      assert events + MoneyEvents(w, money, earnings) == es;
    }
  }

  /** Whatever the catalog does, the reported money changes add up to the net
      change of the wallet, and purchases are numbered 1, 2, 3, ... */
  lemma {:induction false} DeltasTelescope(s: System, es: seq<Event>)
    requires Baseline(s)
    ensures var t := RunAll(s, es);
            && t.watch.lastMoney.value == s.wallet + Deltas(t.events)
            && NumberedFrom1(t.events, t.watch.purchases)
  {
    if es != [] {
      hide NumberedFrom1, Deltas, Next;
      DeltasTelescope(s, es[..|es| - 1]);
      NextTelescopes(RunAll(s, es[..|es| - 1]), es[|es| - 1], s.wallet);
    }
  }

  lemma NextTelescopes(t: System, e: Event, start: int)
    requires t.watch.lastMoney.Some? && t.watch.lastMoney.value == start + Deltas(t.events)
    requires NumberedFrom1(t.events, t.watch.purchases)
    ensures var u := Next(t, e);
            && u.watch.lastMoney.Some? && u.watch.lastMoney.value == start + Deltas(u.events)
            && NumberedFrom1(u.events, u.watch.purchases)
  {
    hide MoneyEvents;
    if e == Poll {
      hide NumberedFrom1, Deltas;
      SumsConcat(t.events, MoneyEvents(t.watch, t.wallet, Visible(t)));
      PollSums(t.watch, t.wallet, Visible(t));
      PollNumbers(t.events, t.watch, t.wallet, Visible(t));
    }
  }

  /** With the catalog readable at every poll, the purchases reported so far add
      up to all money spent before the last poll: grants are never taken for
      purchases and never hide one. */
  lemma {:induction false} PurchasesConserveMoney(s: System, es: seq<Event>)
    requires Baseline(s) && AllEnabled(s, es) && ReadableAtPolls(s, es)
    ensures var t := RunAll(s, es);
            Amounts(t.events) == t.polledSpent && t.watch.lastEarnings == t.polledEarned
  {
    if es != [] {
      hide Next, Books, Amounts, Enabled;
      var n := |es| - 1;
      assert forall i :: 0 <= i < n ==> es[..n][..i] == es[..i];
      PurchasesConserveMoney(s, es[..n]);
      BooksBalance(s, es[..n]);
      NextConserves(RunAll(s, es[..n]), es[n]);
    }
  }

  lemma NextConserves(t: System, e: Event)
    requires Books(t) && Amounts(t.events) == t.polledSpent && t.watch.lastEarnings == t.polledEarned
    requires e == Poll ==> t.readable
    ensures Amounts(Next(t, e).events) == Next(t, e).polledSpent
    ensures Next(t, e).watch.lastEarnings == Next(t, e).polledEarned
  {
    hide MoneyEvents, Amounts;
    if e == Poll {
      PollReports(t);
      PollSums(t.watch, t.wallet, Visible(t));
      SumsConcat(t.events, MoneyEvents(t.watch, t.wallet, Visible(t)));
    }
  }

  /** A poll during a loading screen and one after it: all career earnings are
      reported as a purchase although nothing was spent. */
  lemma UnreadableCatalogInventsPurchase(s: System)
    requires Baseline(s) && s.readable && s.earned > 0
    ensures var t := Next(Next(Next(Next(s, Catalog(false)), Poll), Catalog(true)), Poll);
            t.spent == 0 && t.events == [PurchaseDetected(s.earned, s.wallet, s.wallet, 1)]
  {
    var s1 := Next(s, Catalog(false));
    var s2 := Next(s1, Poll);
    assert MoneyEvents(s1.watch, s1.wallet, Visible(s1)) == [];
    assert s2.watch == Watch(Some(s.wallet), 0, 0, 0) && s2.events == [];
    var s3 := Next(s2, Catalog(true));
    assert Spent(s3.watch, s3.wallet, Visible(s3)) == s.earned;
  }

  // ---- Grants ------------------------------------------------------------

  /** Granting the same total again, with nothing in between, changes nothing;
      after a grant the wallet covers everything ever granted. */
  lemma GrantIdempotent(s: System, total: nat)
    requires s.watch.lastMoney.Some?
    ensures var t := Next(s, Grant(total));
            && Next(t, Grant(total)) == t
            && t.wallet >= t.floor >= total && t.wallet >= s.wallet && t.floor >= s.floor
  {}

  /** Sums over the grants of a run: money put into the wallet, spent money given
      back (the wallet was below the floor), and growth of the floor not paid (the
      wallet was already above it). */
  datatype Paid = Paid(injected: int, refunded: nat, covered: nat)

  function Pay(s: System, e: Event): Paid
    requires s.watch.lastMoney.Some?
  {
    if !e.Grant? then Paid(0, 0, 0)
    else
      Paid(Next(s, e).wallet - s.wallet,
           if s.wallet < s.floor then s.floor - s.wallet else 0,
           if s.floor < s.wallet && s.floor < e.total then (if s.wallet < e.total then s.wallet else e.total) - s.floor
           else 0)
  }

  function PaidIn(s: System, es: seq<Event>): Paid
    requires s.watch.lastMoney.Some?
  {
    if es == [] then Paid(0, 0, 0)
    else
      var before := PaidIn(s, es[..|es| - 1]);
      var last := Pay(RunAll(s, es[..|es| - 1]), es[|es| - 1]);
      Paid(before.injected + last.injected, before.refunded + last.refunded, before.covered + last.covered)
  }

  /** Event i is a grant that finds the wallet below what was granted before. */
  predicate GrantAfterSpending(s: System, es: seq<Event>, i: nat)
    requires s.watch.lastMoney.Some? && i < |es|
  {
    es[i].Grant? && RunAll(s, es[..i]).wallet < RunAll(s, es[..i]).floor
  }

  /** Event i is a grant that raises the floor and finds the wallet above it. */
  predicate GrantToRicher(s: System, es: seq<Event>, i: nat)
    requires s.watch.lastMoney.Some? && i < |es|
  {
    es[i].Grant? && RunAll(s, es[..i]).floor < es[i].total && RunAll(s, es[..i]).floor < RunAll(s, es[..i]).wallet
  }

  predicate NoGrantAfterSpending(s: System, es: seq<Event>)
    requires s.watch.lastMoney.Some?
  {
    forall i :: 0 <= i < |es| ==> !GrantAfterSpending(s, es, i)
  }

  predicate NoGrantToRicher(s: System, es: seq<Event>)
    requires s.watch.lastMoney.Some?
  {
    forall i :: 0 <= i < |es| ==> !GrantToRicher(s, es, i)
  }

  /** Over every run the money put in is the growth of the floor, plus spent money
      given back, less growth the wallet already covered. */
  lemma {:induction false} GrantsBalance(s: System, es: seq<Event>)
    requires s.watch.lastMoney.Some?
    ensures PaidIn(s, es).injected + PaidIn(s, es).covered == RunAll(s, es).floor - s.floor + PaidIn(s, es).refunded
    ensures PaidIn(s, es).refunded == 0 <==> NoGrantAfterSpending(s, es)
    ensures PaidIn(s, es).covered == 0 <==> NoGrantToRicher(s, es)
  {
    hide Next, Pay, NoGrantAfterSpending, NoGrantToRicher;
    if es == [] {
      NoGrantsEmpty(s);
    } else {
      NoGrantsSnoc(s, es);
      GrantsBalance(s, es[..|es| - 1]);
      StepBalance(RunAll(s, es[..|es| - 1]), es[|es| - 1]);
    }
  }

  lemma NoGrantsEmpty(s: System)
    requires s.watch.lastMoney.Some?
    ensures NoGrantAfterSpending(s, []) && NoGrantToRicher(s, [])
  {}

  lemma NoGrantsSnoc(s: System, es: seq<Event>)
    requires s.watch.lastMoney.Some? && es != []
    ensures var n := |es| - 1;
            && (NoGrantAfterSpending(s, es) <==> NoGrantAfterSpending(s, es[..n]) && !GrantAfterSpending(s, es, n))
            && (NoGrantToRicher(s, es) <==> NoGrantToRicher(s, es[..n]) && !GrantToRicher(s, es, n))
  {
    var n := |es| - 1;
    forall i | 0 <= i < n
      ensures GrantAfterSpending(s, es[..n], i) == GrantAfterSpending(s, es, i)
      ensures GrantToRicher(s, es[..n], i) == GrantToRicher(s, es, i)
    {
      assert es[..n][..i] == es[..i];
    }
    hide GrantAfterSpending, GrantToRicher;
  }

  lemma StepBalance(t: System, e: Event)
    requires t.watch.lastMoney.Some?
    ensures Pay(t, e).injected + Pay(t, e).covered == Next(t, e).floor - t.floor + Pay(t, e).refunded
    ensures Pay(t, e).refunded == 0 <==> (e.Grant? ==> t.wallet >= t.floor)
    ensures Pay(t, e).covered == 0 <==> (e.Grant? && t.floor < e.total ==> t.wallet <= t.floor)
  {}

  /** Grants pay at most what was granted if no grant comes after spending below
      the floor, and then exactly that if and only if none comes to a richer wallet. */
  lemma GrantsPayOnce(s: System, es: seq<Event>)
    requires s.watch.lastMoney.Some? && NoGrantAfterSpending(s, es)
    ensures PaidIn(s, es).injected <= RunAll(s, es).floor - s.floor
    ensures PaidIn(s, es).injected == RunAll(s, es).floor - s.floor <==> NoGrantToRicher(s, es)
  {
    GrantsBalance(s, es);
  }

  /** With 1000 granted and 900 of it spent, granting 1500 puts in 1400. */
  lemma GrantRefundsSpending(s: System)
    requires Baseline(s) && s.wallet == 0
    ensures PaidIn(s, [Grant(1000), Spend(900), Grant(1500)]).injected == 2400
    ensures RunAll(s, [Grant(1000), Spend(900), Grant(1500)]).floor == 1500
  {
    var es := [Grant(1000), Spend(900), Grant(1500)];
    assert es[..2] == [Grant(1000), Spend(900)] && es[..2][..1] == [Grant(1000)] && es[..2][..1][..0] == [];
    var s1 := Next(s, Grant(1000));
    var s2 := Next(s1, Spend(900));
    assert RunAll(s, es[..2][..1]) == s1 && RunAll(s, es[..2]) == s2;
    assert PaidIn(s, es[..2][..1]) == Paid(1000, 0, 0);
    assert PaidIn(s, es[..2]) == Paid(1000, 0, 0);
  }
}
