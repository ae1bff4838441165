/** The event store, and the two services that write to it
    (sqlite_event_store.py, ap_event_service.py and client_service.py under
    client/mc3ap): what a restart finds after a cut at any point. */
module EventStore {
  import opened OrderedDict
  import opened Gates
  import opened Reducer
  import opened ReducerLaws
  import opened ItemLog
  import Strings = Text
  import opened Options

  // ---- The tables --------------------------------------------------------

  /** The rows of received_items stand in the order of their integer key; a
      location_checks row holds its sent flag. */
  datatype Tables = Tables(items: Dict<int, int>, checks: map<string, bool>)

  const EMPTY_TABLES: Tables := Tables([], map[])

  /** INSERT OR REPLACE into the rows. */
  function Upsert(rows: Dict<int, int>, index: int, item: int): Dict<int, int> {
    if rows == [] || rows[|rows| - 1].0 < index then rows + [(index, item)]
    else if rows[|rows| - 1].0 == index then rows[..|rows| - 1] + [(index, item)]
    else Upsert(rows[..|rows| - 1], index, item) + [rows[|rows| - 1]]
  }

  /** INSERT OR IGNORE. */
  function InsertCheck(t: Tables, key: string, sent: bool): Tables {
    if key in t.checks then t else t.(checks := t.checks[key := sent])
  }

  function MarkSent(t: Tables, key: string): Tables {
    if key in t.checks then t.(checks := t.checks[key := true]) else t
  }

  /** `str(location_id)`. */
  function Key(id: LocationId): string {
    match id
    case Number(n) => Strings.Decimal(n)
    case Text(text) => text
  }

  function CheckedIn(t: Tables): set<LocationId> {
    set key | key in t.checks :: Text(key)
  }

  function Unsent(t: Tables): set<LocationId> {
    set key | key in t.checks && !t.checks[key] :: Text(key)
  }

  /** `load_client_state`. */
  function Loaded(t: Tables): ClientState {
    ClientState(t.items, Grouped(t.items), CheckedIn(t), false, 0)
  }

  ghost predicate Sorted(rows: Dict<int, int>) {
    forall i, j :: 0 <= i < j < |rows| ==> rows[i].0 < rows[j].0
  }

  lemma {:induction false} UpsertFind(rows: Dict<int, int>, index: int, item: int, i: int)
    ensures Find(Upsert(rows, index, item), i) == if i == index then Some(item) else Find(rows, i)
    ensures forall k :: 0 <= k < |Upsert(rows, index, item)| ==>
              Upsert(rows, index, item)[k].0 == index || Find(rows, Upsert(rows, index, item)[k].0).Some?
  {
    var n := |rows| - 1;
    if rows == [] || rows[n].0 < index {
      FindSnoc(rows, index, item, i);
      FindNoneAll(rows);
    } else if rows[n].0 == index {
      FindSnoc(rows[..n], index, item, i);
      FindNoneAll(rows);
    } else {
      UpsertFind(rows[..n], index, item, i);
      FindSnoc(Upsert(rows[..n], index, item), rows[n].0, rows[n].1, i);
    }
  }

  lemma FindNoneAll(rows: Dict<int, int>)
    ensures forall k :: 0 <= k < |rows| ==> Find(rows, rows[k].0).Some?
  {
    forall k | 0 <= k < |rows|
      ensures Find(rows, rows[k].0).Some?
    {
      FindNone(rows, rows[k].0);
    }
  }

  lemma {:induction false} UpsertSorted(rows: Dict<int, int>, index: int, item: int)
    requires Sorted(rows)
    ensures Sorted(Upsert(rows, index, item))
  {
    var n := |rows| - 1;
    if rows != [] && rows[n].0 > index {
      UpsertSorted(rows[..n], index, item);
      UpsertFind(rows[..n], index, item, index);
      var upper := Upsert(rows[..n], index, item);
      forall k | 0 <= k < |upper|
        ensures upper[k].0 < rows[n].0
      {
        if upper[k].0 != index {
          FindNone(rows[..n], upper[k].0);
        }
      }
    }
  }

  class SqliteEventStore {
    var receivedItems: Dict<int, int>
    var locationChecks: map<string, bool>

    constructor ()
      ensures Contents() == EMPTY_TABLES
    {
      receivedItems, locationChecks := [], map[];
    }

    function Contents(): Tables
      reads this
    {
      Tables(receivedItems, locationChecks)
    }

    method RecordReceivedItem(index: int, item: int)
      modifies this
      ensures Contents() == old(Contents()).(items := Upsert(old(receivedItems), index, item))
      ensures forall i :: Find(receivedItems, i) == if i == index then Some(item) else Find(old(receivedItems), i)
      ensures Sorted(old(receivedItems)) ==> Sorted(receivedItems)
    {
      ghost var before := receivedItems;
      receivedItems := Upsert(receivedItems, index, item);
      forall i
        ensures Find(receivedItems, i) == if i == index then Some(item) else Find(before, i)
      {
        UpsertFind(before, index, item, i);
      }
      if Sorted(before) {
        UpsertSorted(before, index, item);
      }
    }

    method RecordLocationCheck(id: LocationId, sent: bool)
      modifies this
      ensures Contents() == InsertCheck(old(Contents()), Key(id), sent)
    {
      if Key(id) !in locationChecks {
        locationChecks := locationChecks[Key(id) := sent];
      }
    }

    method MarkChecksSent(ids: seq<LocationId>)
      modifies this
      ensures receivedItems == old(receivedItems) && locationChecks.Keys == old(locationChecks).Keys
      ensures forall key :: key in locationChecks ==>
                (locationChecks[key] <==> old(locationChecks)[key] || exists i :: 0 <= i < |ids| && Key(ids[i]) == key)
    {
      for n := 0 to |ids|
        invariant receivedItems == old(receivedItems) && locationChecks.Keys == old(locationChecks).Keys
        invariant forall key :: key in locationChecks ==>
                    (locationChecks[key] <==> old(locationChecks)[key] || exists i :: 0 <= i < n && Key(ids[i]) == key)
      {
        if Key(ids[n]) in locationChecks {
          locationChecks := locationChecks[Key(ids[n]) := true];
        }
      }
    }

    method GetUnsentChecks() returns (ids: set<LocationId>)
      ensures ids == Unsent(Contents())
    {
      ids := set key | key in locationChecks && !locationChecks[key] :: Text(key);
    }

    method LoadClientState() returns (cs: ClientState)
      requires Sorted(receivedItems)
      ensures cs == Loaded(Contents())
    {
      var received: Dict<int, int> := [];
      var instances: Instances := [];
      for i := 0 to |receivedItems|
        invariant received == receivedItems[..i] && instances == Grouped(receivedItems[..i])
      {
        var (index, item) := receivedItems[i];
        FindNone(receivedItems[..i], index);
        PutKeys(receivedItems[..i], index, item);
        assert receivedItems[..i + 1][..i] == receivedItems[..i];
        received := Put(received, index, item);
        instances := AddInstance(instances, item, index);
      }
      assert receivedItems[..|receivedItems|] == receivedItems;
      cs := ClientState(received, instances, set key | key in locationChecks :: Text(key), false, 0);
    }
  }

  // ---- What the services do, effect by effect ----------------------------

  /** An item of a packet; its own index, if it has one, counts only in a reset. */
  datatype PacketItem = PacketItem(item: int, index: Option<int>)

  /** The client's memory, the tables, and the checks sent to the server. */
  datatype Client = Client(memory: ClientState, tables: Tables, wire: set<string>)

  datatype Effect =
    | RecordItem(index: int, item: int) | Adopt(memory: ClientState)
    | Know(id: string) | RecordCheck(id: string) | Send(id: string) | Mark(id: string)

  function Do(c: Client, e: Effect): Client {
    match e
    case RecordItem(index, item) => c.(tables := c.tables.(items := Upsert(c.tables.items, index, item)))
    case Adopt(memory) => c.(memory := memory)
    case Know(id) => c.(memory := ApplyLocationChecked(c.memory, Text(id)))
    case RecordCheck(id) => c.(tables := InsertCheck(c.tables, id, false))
    case Send(id) => c.(wire := c.wire + {id})
    case Mark(id) => c.(tables := MarkSent(c.tables, id))
  }

  function Perform(c: Client, es: seq<Effect>): Client {
    if es == [] then c else Do(Perform(c, es[..|es| - 1]), es[|es| - 1])
  }

  function ResetLog(items: seq<PacketItem>): Dict<int, int> {
    if items == [] then []
    else
      var log := ResetLog(items[..|items| - 1]);
      var it := items[|items| - 1];
      Put(log, if it.index.Some? then it.index.value else |log|, it.item)
  }

  function AppendItems(cs: ClientState, index: int, items: seq<PacketItem>): ClientState {
    if items == [] then cs
    else ApplyReceivedItem(AppendItems(cs, index, items[..|items| - 1]), index + |items| - 1, items[|items| - 1].item)
  }

  function RecordItems(index: int, items: seq<PacketItem>): seq<Effect> {
    seq(|items|, k requires 0 <= k < |items| => RecordItem(index + k, items[k].item))
  }

  /** `handle_received_items`: a reset records nothing. */
  function PacketEffects(cs: ClientState, index: int, items: seq<PacketItem>): seq<Effect> {
    if index == 0 then [Adopt(ClientState(ResetLog(items), Grouped(ResetLog(items)), {}, false, 0))]
    else RecordItems(index, items) + [Adopt(AppendItems(cs, index, items))]
  }

  /** `_on_location_checked`: known checks end here, others go through the outbox. */
  function CheckEffects(cs: ClientState, id: string): seq<Effect> {
    if Text(id) in cs.checked then [] else [Know(id), RecordCheck(id), Send(id), Mark(id)]
  }

  class ApEventService {
    const store: SqliteEventStore

    constructor (store: SqliteEventStore)
      ensures this.store == store
    {
      this.store := store;
    }

    method HandleReceivedItems(cs: ClientState, index: int, items: seq<PacketItem>, ghost wire: set<string>)
        returns (cs': ClientState)
      modifies store
      ensures Client(cs', store.Contents(), wire)
              == Perform(Client(cs, old(store.Contents()), wire), PacketEffects(cs, index, items))
    {
      hide Grouped, Upsert, Put, Perform;
      if index == 0 {
        var received: Dict<int, int> := [];
        for i := 0 to |items|
          invariant received == ResetLog(items[..i])
        {
          assert items[..i + 1][..i] == items[..i];
          received := Put(received, if items[i].index.Some? then items[i].index.value else |received|, items[i].item);
        }
        assert items[..|items|] == items;
        cs' := ApplyFullInventoryReset(received);
        PerformOne(Client(cs, store.Contents(), wire), Adopt(cs'));
        return;
      }
      cs' := cs;
      var next := index;
      ghost var start := Client(cs, store.Contents(), wire);
      assert RecordItems(index, items[..0]) == [];
      PerformNone(start);
      for i := 0 to |items|
        invariant next == index + i && cs' == AppendItems(cs, index, items[..i])
        invariant Client(cs, store.Contents(), wire) == Perform(start, RecordItems(index, items[..i]))
      {
        assert items[..i + 1][..i] == items[..i];
        PerformSnoc(start, RecordItems(index, items[..i]), RecordItem(next, items[i].item));
        assert RecordItems(index, items[..i + 1]) == RecordItems(index, items[..i]) + [RecordItem(next, items[i].item)];
        cs' := ApplyReceivedItem(cs', next, items[i].item);
        store.RecordReceivedItem(next, items[i].item);
        next := next + 1;
      }
      assert items[..|items|] == items;
      PerformSnoc(start, RecordItems(index, items), Adopt(cs'));
    }
  }

  lemma PerformSnoc(c: Client, es: seq<Effect>, e: Effect)
    ensures Perform(c, es + [e]) == Do(Perform(c, es), e)
  {
    assert (es + [e])[..|es|] == es;
  }

  lemma PerformOne(c: Client, e: Effect)
    ensures Perform(c, [e]) == Do(c, e)
  {
    PerformSnoc(c, [], e);
    assert [] + [e] == [e];
  }

  class ClientService {
    var clientState: ClientState
    const store: SqliteEventStore
    var wire: set<string>
    var online: bool

    constructor (store: SqliteEventStore)
      requires Sorted(store.receivedItems)
      ensures this.store == store && State() == Client(Loaded(store.Contents()), store.Contents(), {})
    {
      this.store := store;
      wire, online := {}, true;
      new;
      clientState := store.LoadClientState();
    }

    function State(): Client
      reads this, store
    {
      Client(clientState, store.Contents(), wire)
    }

    /** An offline send raises, after the check was recorded. */
    method OnLocationChecked(id: string) returns (ok: bool)
      modifies this`clientState, this`wire, store
      ensures ok <==> online || old(Text(id) in clientState.checked)
      ensures ok ==> State() == Perform(old(State()), old(CheckEffects(clientState, id)))
      ensures !ok ==> State() == Perform(old(State()), old(CheckEffects(clientState, id))[..2])
    {
      if Text(id) in clientState.checked {
        return true;
      }
      ghost var c := State();
      FourEffects(c, id);
      clientState := ApplyLocationChecked(clientState, Text(id));
      store.RecordLocationCheck(Text(id), false);
      if !online {
        return false;
      }
      wire := wire + {id};
      store.MarkChecksSent([Text(id)]);
      assert Key([Text(id)][0]) == id;
      assert store.locationChecks == MarkSent(InsertCheck(c.tables, id, false), id).checks;
      ok := true;
    }
  }

  lemma FourEffects(c: Client, id: string)
    ensures var es := [Know(id), RecordCheck(id), Send(id), Mark(id)];
            && Perform(c, es[..0]) == c
            && Perform(c, es[..1]) == Do(c, Know(id))
            && Perform(c, es[..2]) == Do(Do(c, Know(id)), RecordCheck(id))
            && Perform(c, es[..3]) == Do(Do(Do(c, Know(id)), RecordCheck(id)), Send(id))
            && Perform(c, es[..4]) == Perform(c, es)
            && Perform(c, es) == Do(Do(Do(Do(c, Know(id)), RecordCheck(id)), Send(id)), Mark(id))
  {
    var es := [Know(id), RecordCheck(id), Send(id), Mark(id)];
    assert es[..4] == es && es[..4][..3] == es[..3] && es[..3][..2] == es[..2]
      && es[..2][..1] == es[..1] && es[..1][..0] == [];
    assert es[..3][2] == Send(id) && es[..2][1] == RecordCheck(id) && es[..1][0] == Know(id);
  }

  // ---- Runs, cut anywhere ------------------------------------------------

  datatype Event = Received(index: int, items: seq<PacketItem>) | Checked(id: LocationId)

  /** A game event without a usable location id is dropped. */
  predicate Usable(id: LocationId) {
    match id
    case Number(n) => n != 0
    case Text(text) => text != ""
  }

  function Effects(c: Client, ev: Event): seq<Effect> {
    match ev
    case Received(index, items) => PacketEffects(c.memory, index, items)
    case Checked(id) => if Usable(id) then CheckEffects(c.memory, Key(id)) else []
  }

  /** An event handled to the end, or cut after some effects and restarted. */
  datatype Turn = Whole(event: Event) | Cut(event: Event, after: nat)

  function Restart(c: Client): Client {
    c.(memory := Loaded(c.tables))
  }

  function Done(c: Client, t: Turn): seq<Effect> {
    var es := Effects(c, t.event);
    if t.Cut? && t.after <= |es| then es[..t.after] else es
  }

  function Take(c: Client, t: Turn): Client {
    var c' := Perform(c, Done(c, t));
    if t.Cut? then Restart(c') else c'
  }

  function Run(c: Client, ts: seq<Turn>): Client {
    if ts == [] then c else Take(Run(c, ts[..|ts| - 1]), ts[|ts| - 1])
  }

  const NEW_CLIENT: Client := Client(EMPTY_STATE, EMPTY_TABLES, {})

  /** Append packets whose items are those the server has at those indexes: an
      index is new, or comes again with the same item. */
  ghost predicate Honest(server: int -> int, t: Turn) {
    t.event.Received? ==>
      t.event.index != 0 && forall k :: 0 <= k < |t.event.items| ==> t.event.items[k].item == server(t.event.index + k)
  }

  /** The tables say nothing false: items as the server has them, and a row
      marked sent only if the check was sent. */
  ghost predicate TablesTrue(server: int -> int, c: Client) {
    && Sorted(c.tables.items)
    && (forall i :: Find(c.tables.items, i).None? || Find(c.tables.items, i) == Some(server(i)))
    && (forall key :: key in c.tables.checks && c.tables.checks[key] ==> key in c.wire)
  }

  /** A restart would come back to this memory, but for the order of the log. */
  ghost predicate Refines(c: Client) {
    && Distinct(c.memory.received) && SameEntries(c.memory.received, c.tables.items)
    && c.memory == ClientState(c.memory.received, Grouped(c.memory.received), CheckedIn(c.tables), false, 0)
  }

  /** Rows, sent flags and sent checks that are never taken back. */
  ghost predicate Keeps(c: Client, d: Client) {
    && (forall i :: Find(c.tables.items, i).Some? ==> Find(d.tables.items, i) == Find(c.tables.items, i))
    && (forall key :: key in c.tables.checks ==>
          key in d.tables.checks && (c.tables.checks[key] ==> d.tables.checks[key]))
    && c.wire <= d.wire
  }

  function Upserts(rows: Dict<int, int>, index: int, items: seq<PacketItem>): Dict<int, int> {
    if items == [] then rows
    else Upsert(Upserts(rows, index, items[..|items| - 1]), index + |items| - 1, items[|items| - 1].item)
  }

  lemma {:induction false} RecordPrefix(c: Client, index: int, items: seq<PacketItem>)
    ensures Perform(c, RecordItems(index, items))
            == c.(tables := c.tables.(items := Upserts(c.tables.items, index, items)))
  {
    hide Upsert;
    if items == [] {
      PerformNone(c);
    } else {
      hide Perform;
      var n := |items| - 1;
      RecordPrefix(c, index, items[..n]);
      PerformSnoc(c, RecordItems(index, items[..n]), RecordItem(index + n, items[n].item));
      assert RecordItems(index, items) == RecordItems(index, items[..n]) + [RecordItem(index + n, items[n].item)];
    }
  }

  function ItemAt(index: int, items: seq<PacketItem>, i: int): Option<int> {
    if index <= i < index + |items| then Some(items[i - index].item) else None
  }

  lemma {:induction false} UpsertsFind(rows: Dict<int, int>, index: int, items: seq<PacketItem>)
    requires Sorted(rows)
    ensures Sorted(Upserts(rows, index, items))
    ensures forall i :: Find(Upserts(rows, index, items), i)
                        == if ItemAt(index, items, i).Some? then ItemAt(index, items, i) else Find(rows, i)
  {
    hide Find, Upsert, Sorted;
    if items != [] {
      var n := |items| - 1;
      var before := Upserts(rows, index, items[..n]);
      UpsertsFind(rows, index, items[..n]);
      UpsertSorted(before, index + n, items[n].item);
      forall i
        ensures Find(Upserts(rows, index, items), i)
                == if ItemAt(index, items, i).Some? then ItemAt(index, items, i) else Find(rows, i)
      {
        UpsertFind(before, index + n, items[n].item, i);
      }
    }
  }

  ghost predicate GroupedMemory(cs: ClientState) {
    Distinct(cs.received) && cs.instances == Grouped(cs.received)
  }

  /** One item, new or identical: the log and its groups stay in step. */
  lemma ReceiveKeepsGroups(cs: ClientState, index: int, item: int)
    requires GroupedMemory(cs) && (Find(cs.received, index).None? || Find(cs.received, index) == Some(item))
    ensures GroupedMemory(ApplyReceivedItem(cs, index, item))
  {
    PutDistinct(cs.received, index, item);
    if Find(cs.received, index).None? {
      PutKeys(cs.received, index, item);
      assert (cs.received + [(index, item)])[..|cs.received|] == cs.received;
    } else {
      LogIsInverse(cs.received);
      ReplayIsIdempotent(cs.(checked := {}, goalSent := false, moneyApplied := 0), index, item);
    }
  }

  lemma {:induction false} AppendKeepsGroups(server: int -> int, cs: ClientState, index: int, items: seq<PacketItem>)
    requires GroupedMemory(cs) && forall i :: Find(cs.received, i).None? || Find(cs.received, i) == Some(server(i))
    requires forall k :: 0 <= k < |items| ==> items[k].item == server(index + k)
    ensures var d := AppendItems(cs, index, items);
            && GroupedMemory(d) && d == cs.(received := d.received, instances := d.instances)
            && forall i :: Find(d.received, i) ==
                if ItemAt(index, items, i).Some? then ItemAt(index, items, i) else Find(cs.received, i)
  {
    hide GroupedMemory, Find, Put, AddInstance, Grouped;
    if items == [] {
      assert AppendItems(cs, index, items) == cs;
    } else {
      var n := |items| - 1;
      var before := AppendItems(cs, index, items[..n]);
      AppendKeepsGroups(server, cs, index, items[..n]);
      var last: int := index + n;
      assert items[n].item == server(last);
      ReceiveKeepsGroups(before, last, items[n].item);
      var d := AppendItems(cs, index, items);
      assert d == ApplyReceivedItem(before, last, items[n].item);
      forall i
        ensures Find(d.received, i)
                == if ItemAt(index, items, i).Some? then ItemAt(index, items, i) else Find(cs.received, i)
      {
        PutFind(before.received, last, items[n].item, i);
      }
    }
  }

  // ---- Every turn keeps the promises -------------------------------------

  /** Recording items the server has keeps the tables true, wherever it is cut. */
  lemma RecordsKept(server: int -> int, c: Client, index: int, items: seq<PacketItem>)
    requires TablesTrue(server, c)
    requires forall k :: 0 <= k < |items| ==> items[k].item == server(index + k)
    ensures var d := Perform(c, RecordItems(index, items));
            TablesTrue(server, d) && Keeps(c, d) && d == c.(tables := Tables(d.tables.items, c.tables.checks))
    ensures forall i :: Find(Perform(c, RecordItems(index, items)).tables.items, i)
                        == if ItemAt(index, items, i).Some? then ItemAt(index, items, i) else Find(c.tables.items, i)
  {
    hide Perform, Upserts, Find, Sorted;
    RecordPrefix(c, index, items);
    UpsertsFind(c.tables.items, index, items);
    forall i
      ensures ItemAt(index, items, i).None? || ItemAt(index, items, i) == Some(server(i))
    {
      if ItemAt(index, items, i).Some? {
        assert items[i - index].item == server(index + (i - index));
      }
    }
  }

  /** A whole append packet: store and memory take the same items. */
  lemma AppendAgrees(server: int -> int, c: Client, index: int, items: seq<PacketItem>)
    requires TablesTrue(server, c) && Refines(c)
    requires forall k :: 0 <= k < |items| ==> items[k].item == server(index + k)
    ensures Refines(Perform(c, RecordItems(index, items) + [Adopt(AppendItems(c.memory, index, items))]))
  {
    hide Perform, AppendItems, Find, Grouped;
    RecordsKept(server, c, index, items);
    PerformSnoc(c, RecordItems(index, items), Adopt(AppendItems(c.memory, index, items)));
    AppendKeepsGroups(server, c.memory, index, items);
  }

  lemma PacketTurn(server: int -> int, c: Client, t: Turn)
    requires Honest(server, t) && t.event.Received? && TablesTrue(server, c) && Refines(c)
    ensures var d := Perform(c, Done(c, t));
            TablesTrue(server, d) && Keeps(c, d) && d.tables.checks == c.tables.checks && d.wire == c.wire
    ensures t.Whole? ==> Refines(Take(c, t))
    ensures t.Whole? ==> forall k :: 0 <= k < |t.event.items| ==>
              Find(Take(c, t).tables.items, t.event.index + k) == Some(t.event.items[k].item)
  {
    hide Perform, AppendItems, Find, Grouped, TablesTrue, Refines, Keeps;
    var index, items := t.event.index, t.event.items;
    var es := Done(c, t);
    if |es| <= |items| {
      RecordsKept(server, c, index, items[..|es|]);
      assert es == RecordItems(index, items[..|es|]);
    } else {
      RecordsKept(server, c, index, items);
      AppendAgrees(server, c, index, items);
      var adopt := Adopt(AppendItems(c.memory, index, items));
      assert es == RecordItems(index, items) + [adopt];
      PerformSnoc(c, RecordItems(index, items), adopt);
      SameButMemory(server, c, Perform(c, RecordItems(index, items)), Perform(c, es));
      forall k | 0 <= k < |items|
        ensures ItemAt(index, items, index + k) == Some(items[k].item)
      {}
    }
  }

  /** The memory plays no part in what the tables promise. */
  lemma SameButMemory(server: int -> int, c: Client, d: Client, e: Client)
    requires TablesTrue(server, d) && Keeps(c, d) && e == d.(memory := e.memory)
    ensures TablesTrue(server, e) && Keeps(c, e)
  {}

  lemma CheckTurn(server: int -> int, c: Client, t: Turn)
    requires t.event.Checked? && TablesTrue(server, c) && Refines(c)
    ensures var d := Perform(c, Done(c, t));
            TablesTrue(server, d) && Keeps(c, d) && d.tables.items == c.tables.items
    ensures t.Whole? ==> Refines(Take(c, t))
    ensures t.Whole? && Usable(t.event.id) ==> Key(t.event.id) in Take(c, t).tables.checks
    ensures t.Whole? && Usable(t.event.id) && Key(t.event.id) !in c.tables.checks ==>
              Take(c, t).tables.checks[Key(t.event.id)] && Key(t.event.id) in Take(c, t).wire
  {
    hide Perform, Grouped;
    var id := Key(t.event.id);
    PerformNone(c);
    FourEffects(c, id);
    var es := Done(c, t);
    var all := [Know(id), RecordCheck(id), Send(id), Mark(id)];
    assert es == [] || es == all[..|es|];
    assert Text(id) in CheckedIn(c.tables) <==> id in c.tables.checks;
    var d := Perform(c, es);
    assert |es| >= 2 && es != [] ==> CheckedIn(d.tables) == CheckedIn(c.tables) + {Text(id)};
  }

  lemma PerformNone(c: Client)
    ensures Perform(c, []) == c
  {}

  /** What a restart loads is what the tables say. */
  lemma RestartRefines(server: int -> int, c: Client)
    requires TablesTrue(server, c)
    ensures TablesTrue(server, Restart(c)) && Refines(Restart(c)) && Keeps(c, Restart(c))
  {}

  lemma TurnKeeps(server: int -> int, c: Client, t: Turn)
    requires Honest(server, t) && TablesTrue(server, c) && Refines(c)
    ensures TablesTrue(server, Take(c, t)) && Refines(Take(c, t)) && Keeps(c, Take(c, t))
  {
    hide TablesTrue, Refines, Keeps, Perform, Done, Restart, Honest;
    if t.event.Received? {
      PacketTurn(server, c, t);
    } else {
      CheckTurn(server, c, t);
    }
    var d := Perform(c, Done(c, t));
    if t.Cut? {
      RestartRefines(server, d);
      KeepsTransitive(c, d, Restart(d));
    }
  }

  lemma KeepsTransitive(c: Client, d: Client, e: Client)
    requires Keeps(c, d) && Keeps(d, e)
    ensures Keeps(c, e)
  {}

  /** Over every run, cut and restarted anywhere: the tables stay true, a restart
      comes back to the client's memory, and nothing recorded is forgotten. */
  lemma {:induction false} RunKeeps(server: int -> int, ts: seq<Turn>, k: nat)
    requires k <= |ts| && forall i :: 0 <= i < |ts| ==> Honest(server, ts[i])
    ensures var c := Run(NEW_CLIENT, ts);
            TablesTrue(server, c) && Refines(c) && Keeps(Run(NEW_CLIENT, ts[..k]), c)
    decreases |ts|
  {
    hide TablesTrue, Refines, Keeps, Take, Honest;
    var n := |ts| - 1;
    if ts == [] {
      assert TablesTrue(server, NEW_CLIENT) && Refines(NEW_CLIENT) && Keeps(NEW_CLIENT, NEW_CLIENT)
        by { NewClientTrue(server); }
    } else if k == |ts| {
      RunKeeps(server, ts[..n], n);
      TurnKeeps(server, Run(NEW_CLIENT, ts[..n]), ts[n]);
      assert ts[..k] == ts;
      KeepsItself(Run(NEW_CLIENT, ts));
    } else {
      RunKeeps(server, ts[..n], k);
      assert ts[..n][..k] == ts[..k];
      TurnKeeps(server, Run(NEW_CLIENT, ts[..n]), ts[n]);
      KeepsTransitive(Run(NEW_CLIENT, ts[..k]), Run(NEW_CLIENT, ts[..n]), Run(NEW_CLIENT, ts));
    }
  }

  lemma NewClientTrue(server: int -> int)
    ensures TablesTrue(server, NEW_CLIENT) && Refines(NEW_CLIENT) && Keeps(NEW_CLIENT, NEW_CLIENT)
  {}

  lemma KeepsItself(c: Client)
    ensures Keeps(c, c)
  {}

  /** The game state after a restart is the game state before it. */
  lemma RestartRestoresGame(seed: Seed, server: int -> int, ts: seq<Turn>)
    requires CountedNamesUnique(seed) && forall i :: 0 <= i < |ts| ==> Honest(server, ts[i])
    ensures var c := Run(NEW_CLIENT, ts); Reduce(seed, Restart(c).memory) == Reduce(seed, c.memory)
  {
    hide Reduce, CountedNamesUnique, Honest, Grouped, SameEntries, Run;
    RunKeeps(server, ts, 0);
    var c := Run(NEW_CLIENT, ts);
    IncrementalIsBatch(c.memory.received);
    IncrementalIsBatch(c.tables.items);
    ArrivalOrderIrrelevant(seed, c.tables.items, c.memory.received, CheckedIn(c.tables)) by {
      assert SameEntries(c.tables.items, c.memory.received) by { Symmetric(c.memory.received, c.tables.items); }
    }
  }

  lemma Symmetric(a: Dict<int, int>, b: Dict<int, int>)
    requires SameEntries(a, b)
    ensures SameEntries(b, a)
  {}

  /** Outbox: at every point of every run, also mid-event, a recorded check was
      sent or is listed unsent; and a turn that ran to its end recorded what it
      was given. */
  lemma Outbox(server: int -> int, ts: seq<Turn>, t: Turn)
    requires Honest(server, t) && forall i :: 0 <= i < |ts| ==> Honest(server, ts[i])
    ensures var c := Run(NEW_CLIENT, ts); var d := Perform(c, Done(c, t));
            && (forall key :: key in d.tables.checks ==> key in d.wire || Text(key) in Unsent(d.tables))
            && (forall key :: key in c.tables.checks ==> Text(key) in Loaded(d.tables).checked)
            && (forall i :: Find(c.tables.items, i).Some? ==> Find(Loaded(d.tables).received, i) == Some(server(i)))
    ensures var c := Run(NEW_CLIENT, ts);
            t.Whole? ==>
              match t.event
              case Received(index, items) =>
                forall k :: 0 <= k < |items| ==>
                  Find(Loaded(Take(c, t).tables).received, index + k) == Some(items[k].item)
              case Checked(id) => Usable(id) ==> Text(Key(id)) in Loaded(Take(c, t).tables).checked
  {
    hide Honest, Run, Perform, Done, Take, Grouped;
    RunKeeps(server, ts, 0);
    var c := Run(NEW_CLIENT, ts);
    if t.event.Received? {
      PacketTurn(server, c, t);
    } else {
      CheckTurn(server, c, t);
    }
  }

  // ---- Where a restart does lose something -------------------------------

  /** After an index-0 packet a restart comes back to the same state only if the
      tables already held that very inventory, and no check at all. */
  lemma ResetRefinesIff(server: int -> int, c: Client, items: seq<PacketItem>)
    requires TablesTrue(server, c)
    ensures Refines(Take(c, Whole(Received(0, items))))
            <==> SameEntries(ResetLog(items), c.tables.items) && c.tables.checks == map[]
  {
    hide Grouped, ResetLog;
    PerformOne(c, Adopt(ClientState(ResetLog(items), Grouped(ResetLog(items)), {}, false, 0)));
    ResetLogDistinct(items);
    if c.tables.checks != map[] {
      SomeKey(c.tables.checks);
      var key :| key in c.tables.checks;
      assert Text(key) in CheckedIn(c.tables);
    }
  }

  lemma SomeKey(m: map<string, bool>)
    ensures (forall key :: key !in m) ==> m == map[]
  {
    if forall key :: key !in m {
      assert m == map[];
    }
  }

  lemma {:induction false} ResetLogDistinct(items: seq<PacketItem>)
    ensures Distinct(ResetLog(items))
  {
    if items != [] {
      ResetLogDistinct(items[..|items| - 1]);
      var log := ResetLog(items[..|items| - 1]);
      var it := items[|items| - 1];
      PutDistinct(log, if it.index.Some? then it.index.value else |log|, it.item);
    }
  }

  /** One item at an index the memory holds with another item: the store takes
      the new item, the memory's groups keep both. */
  lemma AppendRefinesIff(server: int -> int, c: Client, index: int, item: int)
    requires TablesTrue(server, c) && Refines(c) && index != 0
    ensures Refines(Take(c, Whole(Received(index, [PacketItem(item, None)]))))
            <==> Find(c.memory.received, index).None? || Find(c.memory.received, index) == Some(item)
  {
    var items := [PacketItem(item, None)];
    var d := Take(c, Whole(Received(index, items)));
    assert items[..0] == [];
    RecordPrefix(c, index, items);
    PerformSnoc(c, RecordItems(index, items), Adopt(AppendItems(c.memory, index, items)));
    assert AppendItems(c.memory, index, []) == c.memory;
    assert Upserts(c.tables.items, index, []) == c.tables.items;
    assert d.memory == ApplyReceivedItem(c.memory, index, item);
    assert d.tables.items == Upsert(c.tables.items, index, item);
    AppendOne(c, d, index, item);
  }

  lemma AppendOne(c: Client, d: Client, index: int, item: int)
    requires Refines(c) && d.tables.checks == c.tables.checks
    requires d.memory == ApplyReceivedItem(c.memory, index, item)
    requires d.tables.items == Upsert(c.tables.items, index, item)
    ensures Refines(d) <==> Find(c.memory.received, index).None? || Find(c.memory.received, index) == Some(item)
  {
    hide Grouped, Inverse, AddInstance;
    var log := c.memory.received;
    LogIsInverse(log);
    var plain := c.memory.(checked := {});
    ReceiveKeepsInverseIff(plain, index, item);
    PutDistinct(log, index, item);
    forall i
      ensures Find(d.memory.received, i) == Find(d.tables.items, i)
    {
      PutFind(log, index, item, i);
      UpsertFind(c.tables.items, index, item, i);
    }
    if Find(log, index).None? || Find(log, index) == Some(item) {
      ReceiveKeepsGroups(c.memory, index, item);
    } else if Refines(d) {
      LogIsInverse(d.memory.received);
    }
  }

  /** A check recorded but not sent when the client starts is known to it, so the
      same check in the game is dropped: no run without a reset ever sends it. */
  lemma {:induction false} UnsentNeverSent(server: int -> int, c: Client, key: string, ts: seq<Turn>)
    requires TablesTrue(server, c) && Refines(c) && key in c.tables.checks && !c.tables.checks[key] && key !in c.wire
    requires forall i :: 0 <= i < |ts| ==> Honest(server, ts[i])
    ensures var d := Run(c, ts);
            && TablesTrue(server, d) && Refines(d)
            && key !in d.wire && key in d.tables.checks && !d.tables.checks[key]
  {
    hide TablesTrue, Refines, Take, Honest;
    if ts != [] {
      var n := |ts| - 1;
      UnsentNeverSent(server, c, key, ts[..n]);
      TurnKeeps(server, Run(c, ts[..n]), ts[n]);
      StaysUnsent(server, Run(c, ts[..n]), key, ts[n]);
    }
  }

  lemma StaysUnsent(server: int -> int, c: Client, key: string, t: Turn)
    requires TablesTrue(server, c) && Refines(c) && key in c.tables.checks && !c.tables.checks[key] && key !in c.wire
    requires Honest(server, t)
    ensures key !in Take(c, t).wire && key in Take(c, t).tables.checks && !Take(c, t).tables.checks[key]
  {
    hide Perform, Grouped;
    if t.event.Received? {
      PacketTurn(server, c, t);
    } else {
      var id := Key(t.event.id);
      var es := Done(c, t);
      PerformNone(c);
      FourEffects(c, id);
      assert id == key ==> Text(id) in CheckedIn(c.tables);
      assert es == [] || es == [Know(id), RecordCheck(id), Send(id), Mark(id)][..|es|];
    }
  }

  /** The cut that leaves such a check: after it was recorded, before it was sent. */
  lemma CutBeforeSend(id: string)
    requires id != ""
    ensures var c := Take(NEW_CLIENT, Cut(Checked(Text(id)), 2));
            id in c.tables.checks && !c.tables.checks[id] && id !in c.wire
  {
    FourEffects(NEW_CLIENT, id);
  }

  /** A location id that was recorded as a number comes back as another id. */
  lemma RecordedIdLoadsIff(t: Tables, id: LocationId)
    ensures id in Loaded(InsertCheck(t, Key(id), false)).checked <==> id.Text?
  {}

  /** Ids are text in the service, the store and the generated tables.  A location
      table keyed by numbers, as the id type is declared, would match no state from
      the store. */
  lemma NumberTableNeverChecked(t: Tables, table: LocationTable, names: seq<string>)
    requires forall i :: 0 <= i < |table| ==> table[i].0.Number?
    ensures LocationsChecked(table, Loaded(t).checked, names) <==> names == []
  {
    if names != [] {
      var name := names[0];
      LocIdIsFirst(table, name);
    }
  }

  // ---- The reset log and the keys ----------------------------------------

  /** Each item of an index-0 packet goes to its own index, or to the next free place,
      and replaces what was there. */
  lemma ResetLogFind(items: seq<PacketItem>, it: PacketItem, i: int)
    ensures var place := match it.index case Some(index) => index case None => |ResetLog(items)|;
            Find(ResetLog(items + [it]), i) == if i == place then Some(it.item) else Find(ResetLog(items), i)
  {
    assert (items + [it])[..|items|] == items;
    PutFind(ResetLog(items), if it.index.Some? then it.index.value else |ResetLog(items)|, it.item, i);
  }

  /** Without own indexes the items are numbered from 0. */
  lemma {:induction false} PlainReset(items: seq<PacketItem>)
    requires forall i :: 0 <= i < |items| ==> items[i].index.None?
    ensures |ResetLog(items)| == |items|
    ensures forall i :: 0 <= i < |items| ==> ResetLog(items)[i] == (i, items[i].item)
  {
    if items != [] {
      var n := |items| - 1;
      PlainReset(items[..n]);
      FindNone(ResetLog(items[..n]), n);
      PutKeys(ResetLog(items[..n]), n, items[n].item);
    }
  }

  /** The key of a text id is the text, that of a number reads back as the number. */
  lemma KeyIs(id: LocationId)
    ensures id.Text? ==> Key(id) == id.text
    ensures id.Number? && id.n >= 0 ==> Strings.ValueOf(Key(id)) == id.n && Key(id)[0] in Strings.TEN
    ensures id.Number? && id.n < 0 ==> |Key(id)| > 1 && Key(id)[0] == '-' && Strings.ValueOf(Key(id)[1..]) == -id.n
  {
    if id.Number? {
      Strings.DecimalReads(id.n);
    }
  }

  /** A game event with the id 0, or with an empty one, does nothing; any other unknown
      check runs through the outbox. */
  lemma UsableIff(c: Client, id: LocationId)
    requires Text(Key(id)) !in c.memory.checked
    ensures Effects(c, Checked(id)) == [] <==> id == Number(0) || id == Text("")
  {}
}
