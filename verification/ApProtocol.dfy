/** ReceivedItems tracking and the polling client
    (client/mc3ap/adapters/archipelago/ap_protocol.py and ap_client_adapter.py). */
module ApProtocol {
  import opened Options

  /** An item as it stands in a packet; all but the id may be missing. */
  datatype RawItem = RawItem(item: int, location: Option<int>, player: Option<int>, flags: Option<int>)

  datatype ReceivedItem = ReceivedItem(itemId: int, location: int, player: int, flags: int, apIndex: int)

  function Receive(it: RawItem, apIndex: int): ReceivedItem {
    ReceivedItem(it.item, it.location.GetOr(-1), it.player.GetOr(0), it.flags.GetOr(0), apIndex)
  }

  /** r is item number i of a list, as it was sent; a missing location reads -1, a
      missing player and missing flags 0. */
  predicate IsReceived(r: ReceivedItem, it: RawItem, i: int) {
    && r.apIndex == i && r.itemId == it.item
    && (match it.location case Some(l) => r.location == l case None => r.location == -1)
    && (match it.player case Some(p) => r.player == p case None => r.player == 0)
    && (match it.flags case Some(f) => r.flags == f case None => r.flags == 0)
  }

  /** The raw items numbered from start on. */
  function Numbered(items: seq<RawItem>, start: int): (r: seq<ReceivedItem>)
    ensures |r| == |items| && forall i :: 0 <= i < |items| ==> IsReceived(r[i], items[i], start + i)
  {
    seq(|items|, i requires 0 <= i < |items| => Receive(items[i], start + i))
  }

  datatype ApplyResult = ApplyResult(newItems: seq<ReceivedItem>, resync: bool)

  /** The tracker's two fields. */
  datatype Track = Track(nextIndex: int, inventory: seq<ReceivedItem>)

  const EMPTY_TRACK: Track := Track(0, [])

  /** `apply`, as a function of the fields. */
  function ApplyItems(t: Track, index: int, items: seq<RawItem>): Track {
    if index == 0 then Track(|items|, Numbered(items, 0))
    else if index != t.nextIndex then t
    else Track(t.nextIndex + |items|, t.inventory + Numbered(items, t.nextIndex))
  }

  function ResultOf(t: Track, index: int, items: seq<RawItem>): ApplyResult {
    if index == 0 then ApplyResult(Numbered(items, 0), false)
    else if index != t.nextIndex then ApplyResult([], true)
    else ApplyResult(Numbered(items, t.nextIndex), false)
  }

  class ReceivedItemsTracker {
    var nextIndex: int
    var inventory: seq<ReceivedItem>

    constructor ()
      ensures Fields() == EMPTY_TRACK
    {
      nextIndex, inventory := 0, [];
    }

    function Fields(): Track
      reads this
    {
      Track(nextIndex, inventory)
    }

    method Apply(index: int, items: seq<RawItem>) returns (r: ApplyResult)
      modifies this
      ensures Fields() == ApplyItems(old(Fields()), index, items)
      ensures r == ResultOf(old(Fields()), index, items)
      ensures r.resync <==> index != 0 && index != old(nextIndex)
      ensures r.resync ==> r.newItems == [] && Fields() == old(Fields())
      ensures !r.resync ==> |r.newItems| == |items| && nextIndex == index + |items|
                            && inventory == (if index == 0 then [] else old(inventory)) + r.newItems
      ensures !r.resync ==> forall i :: 0 <= i < |items| ==> IsReceived(r.newItems[i], items[i], index + i)
    {
      if index == 0 {
        inventory := [];
        nextIndex := 0;
        var added := Append(items);
        return ApplyResult(added, false);
      }
      if index != nextIndex {
        return ApplyResult([], true);
      }
      var added := Append(items);
      r := ApplyResult(added, false);
    }

    method Append(items: seq<RawItem>) returns (added: seq<ReceivedItem>)
      modifies this
      ensures added == Numbered(items, old(nextIndex))
      ensures |added| == |items|
      ensures forall i :: 0 <= i < |items| ==> IsReceived(added[i], items[i], old(nextIndex) + i)
      ensures inventory == old(inventory) + added && nextIndex == old(nextIndex) + |items|
    {
      added := [];
      for i := 0 to |items|
        invariant added == Numbered(items, old(nextIndex))[..i]
        invariant inventory == old(inventory) + added && nextIndex == old(nextIndex) + i
      {
        var item := Receive(items[i], nextIndex);
        inventory := inventory + [item];
        nextIndex := nextIndex + 1;
        added := added + [item];
      }
    }
  }

  // ---- The client --------------------------------------------------------

  datatype ServerPacket =
    | ReceivedItems(index: int, items: seq<RawItem>)
    | RoomUpdate(checkedLocations: Option<seq<int>>)
    | Other

  datatype ClientPacket = Sync | LocationChecks(ids: set<int>)

  /** What one batch of packets does: the tracker after it, the items `poll`
      returns, the checked-locations list, the packets sent, and whether a resync
      had to go over a closed socket, which abandons the rest of the batch. */
  datatype Outcome = Outcome(track: Track, newItems: seq<ReceivedItem>, checked: seq<int>, sent: seq<ClientPacket>,
                             failed: bool)

  /** `request_sync` and `resend_all_checks`. */
  function ResyncPackets(sentChecks: set<int>): seq<ClientPacket> {
    [Sync] + if sentChecks != {} then [LocationChecks(sentChecks)] else []
  }

  function OnePacket(o: Outcome, p: ServerPacket, open: bool, sentChecks: set<int>): Outcome {
    if o.failed then o
    else match p
      case Other => o
      case RoomUpdate(None) => o
      case RoomUpdate(Some(ids)) => o.(checked := ids)
      case ReceivedItems(index, items) =>
        var r := ResultOf(o.track, index, items);
        if r.resync then
          if open then o.(sent := o.sent + ResyncPackets(sentChecks)) else o.(failed := true)
        else o.(track := ApplyItems(o.track, index, items), newItems := o.newItems + r.newItems)
  }

  function PollBatch(t: Track, checked: seq<int>, batch: seq<ServerPacket>, open: bool, sentChecks: set<int>): Outcome {
    if batch == [] then Outcome(t, [], checked, [], false)
    else OnePacket(PollBatch(t, checked, batch[..|batch| - 1], open, sentChecks), batch[|batch| - 1], open, sentChecks)
  }

  lemma {:induction false} FailureSticks(t: Track, checked: seq<int>, batch: seq<ServerPacket>, k: nat, open: bool,
                                         sentChecks: set<int>)
    requires k <= |batch| && PollBatch(t, checked, batch[..k], open, sentChecks).failed
    ensures PollBatch(t, checked, batch, open, sentChecks) == PollBatch(t, checked, batch[..k], open, sentChecks)
    decreases |batch|
  {
    if k < |batch| {
      assert batch[..|batch| - 1][..k] == batch[..k];
      FailureSticks(t, checked, batch[..|batch| - 1], k, open, sentChecks);
    } else {
      assert batch[..k] == batch;
    }
  }

  datatype PollResult = Items(items: seq<ReceivedItem>) | SendFailed

  class ArchipelagoClient {
    const tracker: ReceivedItemsTracker
    var checkedLocations: seq<int>
    var sentChecks: set<int>
    var open: bool               // sending on a closed socket raises
    var wire: seq<ClientPacket>  // everything sent so far

    constructor ()
      ensures tracker.Fields() == EMPTY_TRACK && sentChecks == {} && wire == [] && checkedLocations == [] && open
    {
      tracker := new ReceivedItemsTracker();
      checkedLocations, sentChecks, open, wire := [], {}, true, [];
    }

    /** `send_location_checks`: recorded as sent only once the send succeeded. */
    method SendLocationChecks(ids: set<int>) returns (ok: bool)
      modifies this`sentChecks, this`wire
      ensures ok <==> ids == {} || open
      ensures ids != {} && open ==> wire == old(wire) + [LocationChecks(ids)] && sentChecks == old(sentChecks) + ids
      ensures ids == {} || !open ==> wire == old(wire) && sentChecks == old(sentChecks)
    {
      if ids == {} {
        return true;
      }
      if !open {
        return false;
      }
      wire := wire + [LocationChecks(ids)];
      sentChecks := sentChecks + ids;
      ok := true;
    }

    method ResendAllChecks()
      requires open
      modifies this`wire
      ensures wire == old(wire) + if sentChecks != {} then [LocationChecks(sentChecks)] else []
    {
      if sentChecks != {} {
        wire := wire + [LocationChecks(sentChecks)];
      }
    }

    /** `poll` on one batch of server messages. */
    method Poll(batch: seq<ServerPacket>) returns (r: PollResult)
      modifies this`checkedLocations, this`wire, tracker
      ensures var o := old(PollBatch(tracker.Fields(), checkedLocations, batch, open, sentChecks));
              && tracker.Fields() == o.track && checkedLocations == o.checked
              && wire == old(wire) + o.sent
              && r == if o.failed then SendFailed else Items(o.newItems)
    {
      var newItems: seq<ReceivedItem> := [];
      ghost var start := tracker.Fields();
      for i := 0 to |batch|
        invariant var o := PollBatch(start, old(checkedLocations), batch[..i], open, sentChecks);
                  && tracker.Fields() == o.track && checkedLocations == o.checked
                  && wire == old(wire) + o.sent && newItems == o.newItems && !o.failed
      {
        assert batch[..i + 1][..i] == batch[..i];
        match batch[i]
        case ReceivedItems(index, items) =>
          var result := tracker.Apply(index, items);
          if result.resync {
            if !open {
              FailureSticks(start, old(checkedLocations), batch, i + 1, open, sentChecks);
              return SendFailed;
            }
            wire := wire + [Sync];
            ResendAllChecks();
          } else {
            newItems := newItems + result.newItems;
          }
        case RoomUpdate(Some(ids)) => checkedLocations := ids;
        case RoomUpdate(None) =>
        case Other =>
      }
      assert batch[..|batch|] == batch;
      r := Items(newItems);
    }
  }

  // ---- Client, server and an unreliable network --------------------------

  /** The server's item list and known checks, the client, and every packet ever
      put on the wire: delivering from a set covers loss, duplication and
      reordering. */
  datatype World = World(items: seq<RawItem>, known: set<int>, track: Track, sent: set<int>,
                         toClient: set<(int, seq<RawItem>)>, toServer: set<set<int>>)

  ghost predicate Step(w: World, v: World) {
    || ServerAppends(w, v) || ServerSends(w, v) || ClientReceives(w, v) || ClientChecks(w, v) || ServerReceives(w, v)
  }

  ghost predicate ServerAppends(w: World, v: World) {
    exists it :: v == w.(items := w.items + [it])
  }

  /** Any slice of the list, tagged with its position; the whole list from 0 is
      the answer to a Sync. */
  ghost predicate ServerSends(w: World, v: World) {
    exists i, j :: 0 <= i <= j <= |w.items| && v == w.(toClient := w.toClient + {(i, w.items[i..j])})
  }

  ghost predicate ClientReceives(w: World, v: World) {
    exists p :: p in w.toClient && v == Deliver(w, p.0, p.1)
  }

  /** One ReceivedItems packet through `poll`, with its resend on a gap. */
  function Deliver(w: World, index: int, items: seq<RawItem>): World {
    var o := OnePacket(Outcome(w.track, [], [], [], false), ReceivedItems(index, items), true, w.sent);
    w.(track := o.track, toServer := w.toServer + set c | c in o.sent && c.LocationChecks? :: c.ids)
  }

  ghost predicate ClientChecks(w: World, v: World) {
    exists ids: set<int> :: ids != {} && v == w.(sent := w.sent + ids, toServer := w.toServer + {ids})
  }

  ghost predicate ServerReceives(w: World, v: World) {
    exists ids: set<int> :: ids in w.toServer && v == w.(known := w.known + ids)
  }

  ghost predicate Initial(w: World) {
    w.known == {} && w.track == EMPTY_TRACK && w.sent == {} && w.toClient == {} && w.toServer == {}
  }

  ghost predicate IsRun(ws: seq<World>) {
    |ws| > 0 && Initial(ws[0]) && forall i :: 0 <= i < |ws| - 1 ==> Step(ws[i], ws[i + 1])
  }

  /** The inventory is a prefix of the server's list, item i carrying index i,
      and the next expected index is its length. */
  ghost predicate InventoryIsPrefix(t: Track, items: seq<RawItem>) {
    && t.nextIndex == |t.inventory| <= |items|
    && forall i :: 0 <= i < |t.inventory| ==> IsReceived(t.inventory[i], items[i], i)
  }

  ghost predicate SlicesOnly(w: World) {
    forall p :: p in w.toClient ==> IsSlice(w.items, p.0, p.1)
  }

  predicate IsSlice(items: seq<RawItem>, i: int, s: seq<RawItem>) {
    0 <= i && i + |s| <= |items| && items[i..i + |s|] == s
  }

  ghost predicate Inv(w: World) {
    && InventoryIsPrefix(w.track, w.items) && SlicesOnly(w)
    && w.known <= w.sent && forall ids :: ids in w.toServer ==> ids <= w.sent
  }

  lemma ApplyKeepsPrefix(t: Track, items: seq<RawItem>, i: int, s: seq<RawItem>)
    requires InventoryIsPrefix(t, items) && IsSlice(items, i, s)
    ensures InventoryIsPrefix(ApplyItems(t, i, s), items)
  {
    hide IsReceived;
    var u := ApplyItems(t, i, s);
    forall k | 0 <= k < |u.inventory|
      ensures IsReceived(u.inventory[k], items[k], k)
    {
      if u != t && i <= k < i + |s| {
        assert items[k] == items[i..i + |s|][k - i] == s[k - i];
      }
    }
  }

  lemma AppendKeepsInv(w: World, it: RawItem)
    requires Inv(w)
    ensures Inv(w.(items := w.items + [it]))
  {
    var items := w.items + [it];
    forall p | p in w.toClient
      ensures IsSlice(items, p.0, p.1)
    {
      assert IsSlice(w.items, p.0, p.1);
      assert items[p.0..p.0 + |p.1|] == w.items[p.0..p.0 + |p.1|];
    }
  }

  lemma DeliverKeepsInv(w: World, p: (int, seq<RawItem>))
    requires Inv(w) && p in w.toClient
    ensures Inv(Deliver(w, p.0, p.1))
  {
    assert IsSlice(w.items, p.0, p.1);
    ApplyKeepsPrefix(w.track, w.items, p.0, p.1);
    var v := Deliver(w, p.0, p.1);
    assert v.track == ApplyItems(w.track, p.0, p.1);
    assert forall ids :: ids in v.toServer ==> ids in w.toServer || ids == w.sent;
  }

  lemma StepKeepsInv(w: World, v: World)
    requires Inv(w) && Step(w, v)
    ensures Inv(v) && w.items <= v.items && w.sent <= v.sent && w.known <= v.known
  {
    if ServerAppends(w, v) {
      var it :| v == w.(items := w.items + [it]);
      AppendKeepsInv(w, it);
    } else if ServerSends(w, v) {
      var i, j :| 0 <= i <= j <= |w.items| && v == w.(toClient := w.toClient + {(i, w.items[i..j])});
      assert IsSlice(w.items, i, w.items[i..j]);
    } else if ClientReceives(w, v) {
      var p :| p in w.toClient && v == Deliver(w, p.0, p.1);
      DeliverKeepsInv(w, p);
    } else if ClientChecks(w, v) {
    } else {
    }
  }

  /** Protocol safety over every run, whatever the network loses, repeats or
      reorders. */
  lemma {:induction false} ProtocolSafety(ws: seq<World>)
    requires IsRun(ws)
    ensures Inv(ws[|ws| - 1])
  {
    hide Inv, Step;
    if |ws| == 1 {
      assert Inv(ws[0]) by { InitialInv(ws[0]); }
    } else {
      ProtocolSafety(ws[..|ws| - 1]);
      StepKeepsInv(ws[|ws| - 2], ws[|ws| - 1]);
    }
  }

  lemma InitialInv(w: World)
    requires Initial(w)
    ensures Inv(w)
  {}

  /** One full packet brings the client level with the server, from any state. */
  lemma FullPacketSynchronises(w: World)
    ensures var t := Deliver(w, 0, w.items).track;
            && t.nextIndex == |t.inventory| == |w.items|
            && forall i :: 0 <= i < |w.items| ==> IsReceived(t.inventory[i], w.items[i], i)
  {}

  /** A gap changes nothing the client holds, and puts on the wire everything it
      ever sent: once that reaches the server, the server knows every check. */
  lemma GapResendsEverything(w: World, index: int, items: seq<RawItem>)
    requires Inv(w) && index != 0 && index != w.track.nextIndex
    ensures var v := Deliver(w, index, items);
            && v.track == w.track
            && (w.sent != {} ==> w.sent in v.toServer)
            && v.known + w.sent == w.sent
  {
    var o := OnePacket(Outcome(w.track, [], [], [], false), ReceivedItems(index, items), true, w.sent);
    if w.sent != {} {
      assert o.sent == [Sync, LocationChecks(w.sent)];
      assert o.sent[1] == LocationChecks(w.sent);
    }
  }
}
