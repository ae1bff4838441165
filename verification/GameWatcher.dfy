/** Polling the game for events (mc3api/events.py) and granting money to it
    (client/mc3ap/adapters/pcsx2/mc3api_runtime.py). */
module GameWatcher {
  import opened EeMemory
  import opened StatsCatalog
  import opened PurchaseRing
  import opened Options

  const COLLECTIBLES_CITY: Tag := [0x4C, 0x4F, 0x43, 0x63]
  const COLLECTIBLES_TOTAL: Tag := [0x4C, 0x4F, 0x43, 0x67]
  const WINS_CAREER: Tag := [0x4E, 0x49, 0x57, 0x6B]
  const CAREER_EARNINGS: Tag := [0x45, 0x43, 0x24, 0x6B]
  const ROUTE_BEST_TIME: Tag := [0x49, 0x54, 0x3A, 0x72]

  /** The tags as texts. */
  lemma TagsAre()
    ensures CodesOf("LOCc") == COLLECTIBLES_CITY && CodesOf("LOCg") == COLLECTIBLES_TOTAL
    ensures CodesOf("NIWk") == WINS_CAREER && CodesOf("EC$k") == CAREER_EARNINGS
    ensures CodesOf("IT:r") == ROUTE_BEST_TIME
  {}

  ghost function CodesOf(s: string): seq<int> {
    seq(|s|, i requires 0 <= i < |s| => s[i] as int)
  }

  datatype GameEvent =
    | MoneyChanged(old_: int, new_: int)
    | PurchaseDetected(amount: int, walletBefore: int, walletAfter: int, ordinal: nat)
    | CollectiblePicked(city: int, cityCount: int, total: int)
    | RouteCompleted(routeId: int, bestTime: Word, won: bool)
    | StatChanged(tag: Tag, index: int, before: int, after: int)
    | VehiclePurchased(purchase: VehiclePurchase)

  type Snapshot = map<Key, Word>

  function Lookup(snap: Snapshot, k: Key): int {
    if k in snap then snap[k] else 0
  }

  // ---- The money part of a poll ------------------------------------------

  /** wallet and earnings as last polled; None before the first poll. */
  datatype Watch = Watch(lastMoney: Option<int>, lastEarnings: int, injected: int, purchases: nat)

  function Spent(w: Watch, money: int, earnings: int): int
    requires w.lastMoney.Some?
  {
    earnings - w.lastEarnings - (money - w.lastMoney.value - w.injected)
  }

  function MoneyEvents(w: Watch, money: int, earnings: int): seq<GameEvent> {
    (if w.lastMoney.Some? && money != w.lastMoney.value then [MoneyChanged(w.lastMoney.value, money)] else [])
    + (if w.lastMoney.Some? && Spent(w, money, earnings) > 0
       then [PurchaseDetected(Spent(w, money, earnings), w.lastMoney.value, money, w.purchases + 1)] else [])
  }

  function AfterPoll(w: Watch, money: int, earnings: int): Watch {
    Watch(Some(money), earnings, 0,
          if w.lastMoney.Some? && Spent(w, money, earnings) > 0 then w.purchases + 1 else w.purchases)
  }

  // ---- The stat diff -----------------------------------------------------

  /** The dictionary's keys in the order their first entries stand. */
  function KeyOrder(es: seq<StatEntry>): (ks: seq<Key>)
    ensures forall i :: 0 <= i < |ks| ==> ks[i] in AsDict(es)
    ensures forall k :: k in AsDict(es) ==> exists i :: 0 <= i < |ks| && ks[i] == k
    ensures forall i, j :: 0 <= i < j < |ks| ==> ks[i] != ks[j]
  {
    if es == [] then []
    else
      var ks, k := KeyOrder(es[..|es| - 1]), KeyOf(es[|es| - 1]);
      assert k !in AsDict(es[..|es| - 1]) ==> (ks + [k])[|ks|] == k;
      assert forall i :: 0 <= i < |ks| ==> (ks + [k])[i] == ks[i];
      if k in AsDict(es[..|es| - 1]) then ks else ks + [k]
  }

  function CityCount(snap: Snapshot, ks: seq<Key>): int {
    if ks == [] then 0
    else CityCount(snap, ks[..|ks| - 1])
         + if ks[|ks| - 1].0 == COLLECTIBLES_CITY then Lookup(snap, ks[|ks| - 1]) else 0
  }

  /** The first of the eight cities whose count moved, or -1. */
  function ChangedCity(prev: Snapshot, snap: Snapshot, city: nat): int
    decreases 8 - city
  {
    if city >= 8 then -1
    else if Lookup(snap, (COLLECTIBLES_CITY, city)) != Lookup(prev, (COLLECTIBLES_CITY, city)) then city
    else ChangedCity(prev, snap, city + 1)
  }

  predicate Changed(prev: Snapshot, snap: Snapshot, k: Key) {
    k in snap && (k in prev ==> prev[k] != snap[k])
  }

  function EventOf(prev: Snapshot, es: seq<StatEntry>, k: Key): GameEvent
    requires k in AsDict(es)
  {
    var snap := AsDict(es);
    if k.0 == COLLECTIBLES_TOTAL then
      CollectiblePicked(ChangedCity(prev, snap, 0), CityCount(snap, KeyOrder(es)), snap[k])
    else if k.0 == ROUTE_BEST_TIME then
      RouteCompleted(k.1, if Get(es, k).Some? then Get(es, k).value.rawValue else 0,
                     Lookup(snap, (WINS_CAREER, 0)) - Lookup(prev, (WINS_CAREER, 0)) > 0)
    else StatChanged(k.0, k.1, Lookup(prev, k), snap[k])
  }

  function DiffEvents(prev: Snapshot, es: seq<StatEntry>, ks: seq<Key>): seq<GameEvent>
    requires forall i :: 0 <= i < |ks| ==> ks[i] in AsDict(es)
  {
    if ks == [] then []
    else
      var k := ks[|ks| - 1];
      DiffEvents(prev, es, ks[..|ks| - 1]) + if Changed(prev, AsDict(es), k) then [EventOf(prev, es, k)] else []
  }

  function PurchaseEvents(ps: seq<VehiclePurchase>): (r: seq<GameEvent>)
    ensures |r| == |ps| && forall i :: 0 <= i < |ps| ==> r[i].VehiclePurchased? && r[i].purchase == ps[i]
  {
    seq(|ps|, i requires 0 <= i < |ps| => VehiclePurchased(ps[i]))
  }

  // ---- The watcher -------------------------------------------------------

  /** What the watcher reads of the game: the wallet word, and the catalog, which
      reads as empty while its pointer is invalid. */
  class Game {
    var money: Word
    var catalog: seq<StatEntry>
    var readable: bool

    constructor (money: Word, catalog: seq<StatEntry>)
      ensures this.money == money && this.catalog == catalog && readable
    {
      this.money, this.catalog, readable := money, catalog, true;
    }

    function Entries(): seq<StatEntry>
      reads this
    {
      if readable then catalog else []
    }

    /** The money setter: negative values become 0, and 32 bits are kept. */
    method SetMoney(value: int)
      modifies this`money
      ensures money == (if value < 0 then 0 else value) % 0x1_0000_0000
    {
      money := (if value < 0 then 0 else value) % 0x1_0000_0000;
    }
  }

  class GameWatcher {
    const game: Game
    const ring: PurchaseRing?  // attached only if the detect hook is installed
    var lastStats: Option<Snapshot>
    var lastMoney: Option<int>
    var purchaseCount: nat
    var injectedMoney: int

    constructor (game: Game, ring: PurchaseRing?)
      ensures this.game == game && this.ring == ring
      ensures Valid() && Fields() == Watch(None, 0, 0, 0) && lastStats == None
    {
      this.game, this.ring := game, ring;
      lastStats, lastMoney, purchaseCount, injectedMoney := None, None, 0, 0;
    }

    ghost predicate Valid()
      reads this
    {
      lastStats.Some? <==> lastMoney.Some?
    }

    function Fields(): Watch
      reads this
    {
      Watch(lastMoney, if lastStats.Some? then Lookup(lastStats.value, (CAREER_EARNINGS, 0)) else 0, injectedMoney,
            purchaseCount)
    }

    method NoteInjectedMoney(delta: int)
      requires Valid()
      modifies this`injectedMoney
      ensures Valid() && Fields() == old(Fields()).(injected := old(injectedMoney) + delta)
    {
      injectedMoney := injectedMoney + delta;
    }

    /** The purchase signature and the money event of `poll_once`. */
    method PollMoney(money: Word, earnings: int) returns (events: seq<GameEvent>)
      requires Valid()
      modifies this`purchaseCount, this`injectedMoney
      ensures events == MoneyEvents(old(Fields()), money, earnings)
      ensures purchaseCount == AfterPoll(old(Fields()), money, earnings).purchases && injectedMoney == 0
    {
      events := [];
      if lastMoney.Some? && money != lastMoney.value {
        events := events + [MoneyChanged(lastMoney.value, money)];
      }
      if lastMoney.Some? && lastStats.Some? {
        var earnPrev := Lookup(lastStats.value, (CAREER_EARNINGS, 0));
        var walletDelta := (money - lastMoney.value) - injectedMoney;
        var spent := (earnings - earnPrev) - walletDelta;
        if spent > 0 {
          purchaseCount := purchaseCount + 1;
          events := events + [PurchaseDetected(spent, lastMoney.value, money, purchaseCount)];
        }
      }
      injectedMoney := 0;
    }

    /** The loop of `poll_once` over the snapshot. */
    method PollStats(entries: seq<StatEntry>) returns (events: seq<GameEvent>)
      ensures events == if lastStats.Some? then DiffEvents(lastStats.value, entries, KeyOrder(entries)) else []
    {
      hide EventOf;
      events := [];
      if lastStats.Some? {
        var snap, ks := AsDict(entries), KeyOrder(entries);
        for i := 0 to |ks|
          invariant events == DiffEvents(lastStats.value, entries, ks[..i])
        {
          assert ks[..i + 1][..i] == ks[..i];
          if Changed(lastStats.value, snap, ks[i]) {
            events := events + [EventOf(lastStats.value, entries, ks[i])];
          }
        }
        assert ks[..|ks|] == ks;
      }
    }

    /** The exact purchases of the detect hook, if its ring is attached. */
    method PollRing() returns (purchases: seq<VehiclePurchase>)
      modifies if ring == null then {} else {ring}
      ensures ring == null ==> purchases == []
      ensures ring != null && ring.bridge.online ==>
                purchases == ToPurchases(ring.bridge.mem, DrainRecords(ring.bridge.mem, old(ring.seen)))
    {
      purchases := [];
      if ring != null {
        purchases := ring.Drain();
      }
    }

    method PollOnce() returns (events: seq<GameEvent>, ghost purchases: seq<VehiclePurchase>)
      requires Valid()
      modifies this, if ring == null then {} else {ring}
      ensures Valid() && lastStats == Some(AsDict(game.Entries()))
      ensures Fields() == AfterPoll(old(Fields()), game.money, Lookup(AsDict(game.Entries()), (CAREER_EARNINGS, 0)))
      ensures events == MoneyEvents(old(Fields()), game.money, Lookup(AsDict(game.Entries()), (CAREER_EARNINGS, 0)))
                        + (if old(lastStats).Some?
                           then DiffEvents(old(lastStats).value, game.Entries(), KeyOrder(game.Entries())) else [])
                        + PurchaseEvents(purchases)
      ensures ring == null ==> purchases == []
      ensures ring != null && ring.bridge.online ==>
                purchases == ToPurchases(ring.bridge.mem, DrainRecords(ring.bridge.mem, old(ring.seen)))
    {
      hide DiffEvents, KeyOrder, DrainRecords, ToPurchases, MoneyEvents, AsDict;
      var money := game.money;
      var entries := game.Entries();
      var snap := AsDict(entries);
      var moneyEvents := PollMoney(money, Lookup(snap, (CAREER_EARNINGS, 0)));
      var statEvents := PollStats(entries);
      var drained := PollRing();
      purchases := drained;
      events := moneyEvents + statEvents + PurchaseEvents(drained);
      lastStats, lastMoney := Some(snap), Some(money);
    }
  }

  /** The entry is there now, and was not there or had another value. */
  predicate Moved(prev: Snapshot, snap: Snapshot, k: Key) {
    k in snap && (k !in prev || prev[k] != snap[k])
  }

  /** An ordinary statistic is reported exactly when it moved, with its old value
      (0 if it was not there) and its new one; nothing else is. */
  lemma StatReportedIff(prev: Snapshot, es: seq<StatEntry>, k: Key, before: int, after: int)
    requires k.0 != COLLECTIBLES_TOTAL && k.0 != ROUTE_BEST_TIME
    ensures StatChanged(k.0, k.1, before, after) in DiffEvents(prev, es, KeyOrder(es))
            <==> && Moved(prev, AsDict(es), k) && after == AsDict(es)[k]
                 && before == if k in prev then prev[k] else 0
  {
    hide AsDict, KeyOrder, DiffEvents, CityCount, ChangedCity;
    var ks, e := KeyOrder(es), StatChanged(k.0, k.1, before, after);
    EventReportedIff(prev, es, ks, e);
    if k in AsDict(es) {
      var i :| 0 <= i < |ks| && ks[i] == k;
      assert Reports(prev, es, ks[i], e) <==> Reports(prev, es, k, e);
    }
  }

  predicate Reports(prev: Snapshot, es: seq<StatEntry>, k: Key, e: GameEvent) {
    Changed(prev, AsDict(es), k) && EventOf(prev, es, k) == e
  }

  lemma {:induction false} EventReportedIff(prev: Snapshot, es: seq<StatEntry>, ks: seq<Key>, e: GameEvent)
    requires forall i :: 0 <= i < |ks| ==> ks[i] in AsDict(es)
    ensures e in DiffEvents(prev, es, ks) <==> exists i :: 0 <= i < |ks| && Reports(prev, es, ks[i], e)
  {
    hide AsDict, EventOf;
    if ks != [] {
      var n := |ks| - 1;
      EventReportedIff(prev, es, ks[..n], e);
      if i :| 0 <= i < |ks[..n]| && Reports(prev, es, ks[..n][i], e) {
        assert Reports(prev, es, ks[i], e);
      }
      if i :| 0 <= i < n && Reports(prev, es, ks[i], e) {
        assert Reports(prev, es, ks[..n][i], e);
      }
    }
  }

  /** A finished route is reported exactly when its best time moved or appeared: with
      the time of the first entry of that route, and as won exactly if the career wins
      went up in the same poll. */
  lemma RouteReportedIff(prev: Snapshot, es: seq<StatEntry>, routeId: Word, time: Word, won: bool)
    ensures var k := (ROUTE_BEST_TIME, routeId);
            RouteCompleted(routeId, time, won) in DiffEvents(prev, es, KeyOrder(es))
            <==> && Moved(prev, AsDict(es), k) && Get(es, k).Some? && time == Get(es, k).value.rawValue
                 && won == ((if (WINS_CAREER, 0) in AsDict(es) then AsDict(es)[(WINS_CAREER, 0)] else 0)
                          > if (WINS_CAREER, 0) in prev then prev[(WINS_CAREER, 0)] else 0)
    ensures UniqueKeys(es) && RouteCompleted(routeId, time, won) in DiffEvents(prev, es, KeyOrder(es)) ==>
              (ROUTE_BEST_TIME, routeId) in AsDict(es) && time == AsDict(es)[(ROUTE_BEST_TIME, routeId)]
  {
    hide AsDict, KeyOrder, DiffEvents, Get, UniqueKeys, Reports;
    var ks, k, e := KeyOrder(es), (ROUTE_BEST_TIME, routeId), RouteCompleted(routeId, time, won);
    EventReportedIff(prev, es, ks, e);
    ReportsRoute(prev, es, routeId, time, won);
    if k in AsDict(es) {
      var i :| 0 <= i < |ks| && ks[i] == k;
    }
    if UniqueKeys(es) {
      GetAgreesWithDict(es, k);
    }
  }

  lemma ReportsRoute(prev: Snapshot, es: seq<StatEntry>, routeId: Word, time: Word, won: bool)
    ensures var k, e := (ROUTE_BEST_TIME, routeId), RouteCompleted(routeId, time, won);
            && (k in AsDict(es) ==>
                  (Reports(prev, es, k, e)
                   <==> && Moved(prev, AsDict(es), k) && Get(es, k).Some? && time == Get(es, k).value.rawValue
                        && won == ((if (WINS_CAREER, 0) in AsDict(es) then AsDict(es)[(WINS_CAREER, 0)] else 0)
                                 > if (WINS_CAREER, 0) in prev then prev[(WINS_CAREER, 0)] else 0)))
            && forall k' :: k' in AsDict(es) && Reports(prev, es, k', e) ==> k' == k
  {
    hide AsDict, KeyOrder, Get, CityCount, ChangedCity;
    KeyFound(es, (ROUTE_BEST_TIME, routeId));
  }

  lemma {:induction false} KeyFound(es: seq<StatEntry>, k: Key)
    ensures k in AsDict(es) <==> Get(es, k).Some?
  {
    if es != [] {
      var n := |es| - 1;
      KeyFound(es[..n], k);
      GetConcat(es[..n], [es[n]], k);
      assert es == es[..n] + [es[n]];
    }
  }

  /** Entry p is the first one of k. */
  ghost predicate FirstAt(es: seq<StatEntry>, k: Key, p: nat) {
    p < |es| && KeyOf(es[p]) == k && forall q :: 0 <= q < p ==> KeyOf(es[q]) != k
  }

  /** The keys, and so the events of a poll, come in the order of their first entries. */
  lemma {:induction false} KeysInOrder(es: seq<StatEntry>, i: nat, j: nat, p: nat, q: nat)
    requires i < |KeyOrder(es)| && j < |KeyOrder(es)|
    requires FirstAt(es, KeyOrder(es)[i], p) && FirstAt(es, KeyOrder(es)[j], q)
    ensures i < j <==> p < q
  {
    hide AsDict, FirstAt;
    var n := |es| - 1;
    FirstBefore(es, KeyOrder(es)[i], p);
    FirstBefore(es, KeyOrder(es)[j], q);
    if i < |KeyOrder(es[..n])| && j < |KeyOrder(es[..n])| {
      KeysInOrder(es[..n], i, j, p, q);
    }
  }

  lemma FirstBefore(es: seq<StatEntry>, k: Key, p: nat)
    requires FirstAt(es, k, p)
    ensures if k in AsDict(es[..|es| - 1]) then p < |es| - 1 && FirstAt(es[..|es| - 1], k, p)
            else p == |es| - 1 && KeyOf(es[p]) == k
  {
    hide AsDict;
    var n := |es| - 1;
    KeyListed(es[..n], k);
    if p < n {
      assert KeyOf(es[..n][p]) == k;
    }
  }

  lemma {:induction false} KeyListed(es: seq<StatEntry>, k: Key)
    ensures k in AsDict(es) <==> exists p :: 0 <= p < |es| && KeyOf(es[p]) == k
  {
    if es != [] {
      var n := |es| - 1;
      KeyListed(es[..n], k);
      if p :| 0 <= p < n && KeyOf(es[p]) == k {
        assert KeyOf(es[..n][p]) == k;
      }
    }
  }

  /** The sum of the values of these entries. */
  ghost function SumOf(snap: Snapshot, ks: set<Key>): nat
    requires ks <= snap.Keys
  {
    if ks == {} then 0
    else
      var k :| k in ks;
      snap[k] + SumOf(snap, ks - {k})
  }

  lemma {:induction false} SumPick(snap: Snapshot, ks: set<Key>, k: Key)
    requires ks <= snap.Keys && k in ks
    ensures SumOf(snap, ks) == snap[k] + SumOf(snap, ks - {k})
  {
    var p :| p in ks && SumOf(snap, ks) == snap[p] + SumOf(snap, ks - {p});
    if p != k {
      SumPick(snap, ks - {p}, k);
      SumPick(snap, ks - {k}, p);
      assert ks - {p} - {k} == ks - {k} - {p};
    }
  }

  /** The city entries of a snapshot: tag "LOCc". */
  function CityKeys(snap: Snapshot): set<Key> {
    set k | k in snap && k.0 == [0x4C, 0x4F, 0x43, 0x63]
  }

  function CitiesOf(ks: seq<Key>): (r: set<Key>)
    ensures forall k :: k in r <==> k in ks && k.0 == COLLECTIBLES_CITY
  {
    set i | 0 <= i < |ks| && ks[i].0 == COLLECTIBLES_CITY :: ks[i]
  }

  lemma {:induction false} CityCountIs(snap: Snapshot, ks: seq<Key>)
    requires forall i :: 0 <= i < |ks| ==> ks[i] in snap
    requires forall i, j :: 0 <= i < j < |ks| ==> ks[i] != ks[j]
    ensures CitiesOf(ks) <= snap.Keys && CityCount(snap, ks) == SumOf(snap, CitiesOf(ks))
  {
    if ks == [] {
      assert CitiesOf(ks) == {};
    } else {
      var n, last := |ks| - 1, ks[|ks| - 1];
      CityCountIs(snap, ks[..n]);
      assert ks == ks[..n] + [last];
      if last.0 == COLLECTIBLES_CITY {
        SumPick(snap, CitiesOf(ks), last);
        assert CitiesOf(ks) - {last} == CitiesOf(ks[..n]);
      } else {
        assert CitiesOf(ks) == CitiesOf(ks[..n]);
      }
    }
  }

  lemma AllCities(es: seq<StatEntry>)
    ensures CitiesOf(KeyOrder(es)) == CityKeys(AsDict(es))
  {
    hide AsDict, KeyOrder;
    forall k
      ensures k in KeyOrder(es) <==> k in AsDict(es)
    {
      if k in AsDict(es) {
        var i :| 0 <= i < |KeyOrder(es)| && KeyOrder(es)[i] == k;
      }
    }
  }

  /** A collectible is reported exactly when a collectibles total moved or appeared:
      with that total, the sum of all cities' counts, and the first city whose own
      count moved, or -1 if none of the eight did. */
  lemma CollectibleReportedIff(prev: Snapshot, es: seq<StatEntry>, city: int, cityCount: int, total: int)
    ensures CollectiblePicked(city, cityCount, total) in DiffEvents(prev, es, KeyOrder(es))
            <==> && (exists index: Word :: TotalMoved(prev, AsDict(es), index, total))
                 && cityCount == SumOf(AsDict(es), CityKeys(AsDict(es))) && FirstMoved(prev, AsDict(es), city)
  {
    hide AsDict, KeyOrder, DiffEvents, FirstMoved, SumOf, TotalMoved, Reports;
    var ks, snap, e := KeyOrder(es), AsDict(es), CollectiblePicked(city, cityCount, total);
    EventReportedIff(prev, es, ks, e);
    forall i | 0 <= i < |ks|
      ensures Reports(prev, es, ks[i], e)
              <==> ks[i].0 == COLLECTIBLES_TOTAL && TotalMoved(prev, snap, ks[i].1, total)
                   && cityCount == SumOf(snap, CityKeys(snap)) && FirstMoved(prev, snap, city)
    {
      ReportsPick(prev, es, ks[i], city, cityCount, total);
    }
    if index: Word :| TotalMoved(prev, snap, index, total) {
      TotalListed(prev, snap, index, total);
      var i :| 0 <= i < |ks| && ks[i] == (COLLECTIBLES_TOTAL, index);
    }
  }

  lemma ReportsPick(prev: Snapshot, es: seq<StatEntry>, k: Key, city: int, cityCount: int, total: int)
    requires k in AsDict(es)
    ensures Reports(prev, es, k, CollectiblePicked(city, cityCount, total))
            <==> k.0 == COLLECTIBLES_TOTAL && TotalMoved(prev, AsDict(es), k.1, total)
                 && cityCount == SumOf(AsDict(es), CityKeys(AsDict(es))) && FirstMoved(prev, AsDict(es), city)
  {
    hide AsDict, KeyOrder, Get, CityCount, ChangedCity, FirstMoved, SumOf, CityKeys, CitiesOf;
    FirstMovedIs(prev, AsDict(es), city);
    CityCountIs(AsDict(es), KeyOrder(es));
    AllCities(es);
  }

  lemma TotalListed(prev: Snapshot, snap: Snapshot, index: Word, total: int)
    ensures TotalMoved(prev, snap, index, total) ==> (COLLECTIBLES_TOTAL, index) in snap
  {}

  predicate TotalMoved(prev: Snapshot, snap: Snapshot, index: Word, total: int) {
    Moved(prev, snap, (COLLECTIBLES_TOTAL, index)) && total == snap[(COLLECTIBLES_TOTAL, index)]
  }

  predicate CityMoved(prev: Snapshot, snap: Snapshot, city: nat)
    requires city < 8
  {
    var k: Key := ([0x4C, 0x4F, 0x43, 0x63], city);
    (if k in snap then snap[k] else 0) != if k in prev then prev[k] else 0
  }

  /** city is the first of the eight whose count moved, or -1 if none did. */
  predicate FirstMoved(prev: Snapshot, snap: Snapshot, city: int) {
    if city == -1 then forall c :: 0 <= c < 8 ==> !CityMoved(prev, snap, c)
    else 0 <= city < 8 && CityMoved(prev, snap, city) && forall c :: 0 <= c < city ==> !CityMoved(prev, snap, c)
  }

  lemma {:induction false} ChangedCityIs(prev: Snapshot, snap: Snapshot, from: nat, city: int)
    requires from <= 8
    ensures ChangedCity(prev, snap, from) == city
            <==> if city == -1 then forall c :: from <= c < 8 ==> !CityMoved(prev, snap, c)
                 else from <= city < 8 && CityMoved(prev, snap, city)
                      && forall c :: from <= c < city ==> !CityMoved(prev, snap, c)
    decreases 8 - from
  {
    if from < 8 {
      ChangedCityIs(prev, snap, from + 1, city);
      var moved := CityMoved(prev, snap, from);
      assert ChangedCity(prev, snap, from) == if moved then from else ChangedCity(prev, snap, from + 1);
      hide CityMoved;
      assert (forall c :: from <= c < 8 ==> !CityMoved(prev, snap, c))
        <==> !moved && forall c :: from + 1 <= c < 8 ==> !CityMoved(prev, snap, c);
    }
  }

  lemma FirstMovedIs(prev: Snapshot, snap: Snapshot, city: int)
    ensures FirstMoved(prev, snap, city) <==> ChangedCity(prev, snap, 0) == city
  {
    ChangedCityIs(prev, snap, 0, city);
  }

  // ---- Granting money ----------------------------------------------------

  class Mc3ApiRuntime {
    const game: Game
    const watcher: GameWatcher
    var moneyFloor: nat
    var pendingItems: seq<string>

    ghost predicate Valid()
      reads this, watcher
    {
      watcher.game == game && watcher.Valid()
    }

    /** The first poll sets the baseline. */
    constructor (game: Game, ring: PurchaseRing?)
      modifies if ring == null then {} else {ring}
      ensures Valid() && this.game == game && moneyFloor == 0 && pendingItems == []
      ensures watcher.Fields() == Watch(Some(game.money), Lookup(AsDict(game.Entries()), (CAREER_EARNINGS, 0)), 0, 0)
    {
      this.game := game;
      watcher := new GameWatcher(game, ring);
      moneyFloor, pendingItems := 0, [];
      new;
      var _, _ := watcher.PollOnce();
    }

    /** `apply_money_total`: raise the wallet to the floor and tell the watcher. */
    method ApplyMoneyTotal(total: nat)
      requires Valid()
      modifies this`moneyFloor, game`money, watcher`injectedMoney
      ensures Valid() && moneyFloor == (if old(moneyFloor) < total then total else old(moneyFloor))
      ensures game.money == if old(game.money) < moneyFloor then moneyFloor % 0x1_0000_0000 else old(game.money)
      ensures watcher.Fields() == old(watcher.Fields()).(injected := old(watcher.Fields()).injected
                + if old(game.money) < moneyFloor then moneyFloor - old(game.money) else 0)
    {
      moneyFloor := if moneyFloor < total then total else moneyFloor;
      if game.money < moneyFloor {
        var injected := moneyFloor - game.money;
        game.SetMoney(moneyFloor);
        watcher.NoteInjectedMoney(injected);
      }
    }

    method RecordPendingItem(name: string)
      modifies this`pendingItems
      ensures pendingItems == old(pendingItems) + [name]
    {
      pendingItems := pendingItems + [name];
    }
  }
}
