/** The command loop of a websocket client (planeProtocolHandler in
    cmd/pw_ws_broker/web.go): subscriptions, batched locations and replies. */
module WsClient {
  import opened Basics
  import opened PendingMap
  import opened WsProtocol

  /** What is written of a list of messages with so many writes left. */
  function Cut(messages: seq<Response>, writes: nat): seq<Response> {
    if |messages| <= writes then messages else messages[..writes]
  }

  lemma CutAppended(sent: seq<Response>, before: seq<Response>, out: seq<Response>, writes: nat)
    requires |before| <= writes
    ensures sent + before + Cut(out, writes - |before|) == sent + Cut(before + out, writes)
  {
  }

  class Client {
    const grid: set<string>
    const gridNames: set<string>
    const sendTickDuration: int
    const snapshotMaxAge: int
    var subs: set<string>
    var locationMessages: seq<Option<Location>>
    var icaoIdLookup: map<string, nat>
    var currentSendTick: int
    /** Everything written to the connection, and how many more writes will succeed. */
    var sent: seq<Response>
    var writesLeft: nat
    /** The locations recorded since the last flush or reset. */
    ghost var recorded: seq<Location>

    ghost function View(): Abstract
      reads this
    {
      Abstract(subs, recorded, locationMessages)
    }

    ghost predicate Valid()
      reads this
    {
      && subs <= grid
      && Indexed(locationMessages, icaoIdLookup)
      && Pending(locationMessages, icaoIdLookup) == LatestOf(recorded)
    }

    constructor (tiles: set<string>, sendTick: int, maxAge: int, writes: nat)
      ensures Valid() && View() == START && sent == [] && writesLeft == writes
      ensures gridNames == tiles + {""}
      ensures grid == {"all_low", "all_high"} + (set t | t in tiles :: t + "_low") + (set t | t in tiles :: t + "_high")
      ensures sendTickDuration == sendTick && snapshotMaxAge == maxAge
    {
      grid := {"all_low", "all_high"} + (set t | t in tiles :: t + "_low") + (set t | t in tiles :: t + "_high");
      gridNames := tiles + {""};
      sendTickDuration, snapshotMaxAge := sendTick, maxAge;
      currentSendTick := if sendTick == 0 then 10_000_000_000 else sendTick;
      subs, locationMessages, icaoIdLookup := {}, [], map[];
      sent, writesLeft, recorded := [], writes, [];
    }

    /** What is written of a list of messages when the first failure ends the loop. */
    twostate predicate Wrote(messages: seq<Response>, ok: bool)
      reads this
    {
      && ok == (|messages| <= old(writesLeft))
      && sent == old(sent) + Cut(messages, old(writesLeft))
      && writesLeft == if ok then old(writesLeft) - |messages| else 0
    }

    method SendPlaneMessage(r: Response) returns (ok: bool)
      modifies `sent, `writesLeft
      ensures Wrote([r], ok)
    {
      if writesLeft == 0 {
        return false;
      }
      sent := sent + [r];
      writesLeft := writesLeft - 1;
      return true;
    }

    /** Remember a location for the next flush: at most one entry per ICAO. */
    method Record(loc: Location)
      requires Valid()
      modifies `locationMessages, `icaoIdLookup, `recorded
      ensures Valid() && View() == RecordingOne(old(View()), loc)
      ensures Pending(locationMessages, icaoIdLookup)
           == old(Pending(locationMessages, icaoIdLookup))[loc.icao := loc]
    {
      var messages, lookup := Upsert(locationMessages, icaoIdLookup, loc);
      LatestNext(recorded, loc);
      locationMessages, icaoIdLookup, recorded := messages, lookup, recorded + [loc];
    }

    /** Empty the batch after sending it. */
    method ResetBatch()
      requires Valid()
      modifies `locationMessages, `icaoIdLookup, `recorded
      ensures Valid() && recorded == [] && locationMessages == []
    {
      locationMessages, icaoIdLookup, recorded := [], map[], [];
    }

    /** The periodic tick: what is waiting is delivered exactly, then forgotten. */
    method Tick() returns (ok: bool)
      requires Valid()
      modifies `locationMessages, `icaoIdLookup, `recorded, `sent, `writesLeft
      ensures Valid() && recorded == [] && locationMessages == []
      ensures Wrote(Flushed(old(locationMessages)), ok)
      ensures Delivers(old(locationMessages), LatestOf(old(recorded)))
    {
      PendingDelivered(locationMessages, icaoIdLookup);
      ok := FlushBatch();
    }

    lemma EmptyBatch()
      requires Valid() && locationMessages == []
      ensures recorded == []
    {
      if |recorded| > 0 {
        var l := recorded[|recorded| - 1];
        assert l.icao in LatestOf(recorded);
      }
    }

    /** A live update: dropped, sent at once, or batched. */
    method HandleLocation(loc: Location, highLow: string) returns (ok: bool)
      requires Valid()
      modifies this
      ensures Valid() && subs == old(subs)
      ensures !TileMatchesSubs(subs, loc.tileLocation, highLow) ==>
          recorded == old(recorded) && locationMessages == old(locationMessages) && Wrote([], ok)
      ensures TileMatchesSubs(subs, loc.tileLocation, highLow) && sendTickDuration > 0 ==>
          && recorded == old(recorded) + [loc] && Wrote([], ok)
          && locationMessages == Put(old(locationMessages), loc)
      ensures TileMatchesSubs(subs, loc.tileLocation, highLow) && sendTickDuration <= 0 ==>
          recorded == old(recorded) && locationMessages == old(locationMessages) && Wrote([PlaneLocationMsg(loc)], ok)
    {
      ok := true;
      if TileMatchesSubs(subs, loc.tileLocation, highLow) {
        if sendTickDuration > 0 {
          Record(loc);
        } else {
          ok := SendPlaneMessage(PlaneLocationMsg(loc));
        }
      }
    }

    method Subscribe(what: string) returns (ok: bool)
      requires Valid()
      modifies `subs, `sent, `writesLeft
      ensures Valid() && recorded == old(recorded) && locationMessages == old(locationMessages)
      ensures subs == old(subs) + if what in grid then {what} else {}
      ensures Wrote([if what in grid then AckSub({what}, "") else Error("Unknown Tile: " + what)], ok)
    {
      if what in grid {
        subs := subs + {what};
        ok := SendPlaneMessage(AckSub({what}, ""));
      } else {
        ok := SendPlaneMessage(Error("Unknown Tile: " + what));
      }
    }

    method Unsubscribe(what: string) returns (ok: bool)
      requires Valid()
      modifies `subs, `sent, `writesLeft
      ensures Valid() && recorded == old(recorded) && locationMessages == old(locationMessages) && subs == old(subs) - {what}
      ensures Wrote([if what in old(subs) then AckUnsub(what) else Error("Not Subbed to: " + what)], ok)
    {
      if what in subs {
        ok := SendPlaneMessage(AckUnsub(what));
      } else {
        ok := SendPlaneMessage(Error("Not Subbed to: " + what));
      }
      subs := subs - {what};
    }

    method TakeSnapshot(global: seq<Location>, cutoff: Option<int>) returns (snap: seq<Location>)
      ensures snap == Snapshot(global, subs, cutoff)
    {
      snap := [];
      for n := 0 to |global|
        invariant snap == Snapshot(global[..n], subs, cutoff)
      {
        assert global[..n + 1][..n] == global[..n];
        if !(cutoff.Some? && global[n].lastMsg < cutoff.value) {
          if LocationMatchesSubs(subs, global[n]) {
            snap := snap + [global[n]];
          }
        }
      }
      assert global[..|global|] == global;
    }

    function SettingsOf(): Settings {
      Settings(grid, gridNames, sendTickDuration, snapshotMaxAge)
    }

    function Cutoff(now: int): Option<int> {
      CutoffAt(SettingsOf(), now)
    }

    method FindInvalid(list: seq<string>) returns (invalid: Option<string>)
      ensures invalid.None? <==> AllValid(SettingsOf(), list)
      ensures invalid.Some? ==> invalid.value == FirstInvalid(SettingsOf(), list)
    {
      for n := 0 to |list|
        invariant forall i :: 0 <= i < n ==> list[i] in grid
      {
        if list[n] !in grid {
          FirstInvalidAt(SettingsOf(), list, n);
          return Some(list[n]);
        }
      }
      return None;
    }

    /** Forget the batch without shortening the slice: its entries become null. */
    method ClearBatch()
      requires Valid()
      modifies `locationMessages, `icaoIdLookup, `recorded
      ensures Valid() && recorded == [] && locationMessages == Cleared(old(locationMessages))
    {
      icaoIdLookup := map[];
      locationMessages := Cleared(locationMessages);
      recorded := [];
    }

    method RecordNew(snap: seq<Location>)
      requires Valid() && recorded == [] && OnePerIcao(snap)
      modifies `locationMessages, `icaoIdLookup, `recorded
      ensures Valid() && recorded == snap && locationMessages == PutAll(old(locationMessages), snap)
    {
      for n := 0 to |snap|
        invariant Valid() && recorded == snap[..n] && locationMessages == PutAll(old(locationMessages), snap[..n])
      {
        NotYetIn(snap, n);
        if snap[n].icao !in icaoIdLookup {
          Record(snap[n]);
        }
        PutAllNext(old(locationMessages), snap[..n], snap[n]);
        assert snap[..n + 1] == snap[..n] + [snap[n]];
      }
      assert snap[..|snap|] == snap;
    }

    lemma NotYetIn(snap: seq<Location>, n: nat)
      requires Valid() && n < |snap| && OnePerIcao(snap) && recorded == snap[..n]
      ensures snap[n].icao !in icaoIdLookup
    {
      LatestIsLast(recorded, snap[n].icao);
      assert snap[n].icao in Pending(locationMessages, icaoIdLookup) <==> snap[n].icao in icaoIdLookup;
      assert forall i :: 0 <= i < n ==> recorded[i] == snap[i];
    }

    /** The snapshot and its completion; the aircraft in it start the next batch. */
    method SendSnapshot(requestId: string, global: seq<Location>, now: int) returns (ok: bool)
      requires Valid() && recorded == [] && OnePerIcao(global)
      modifies `locationMessages, `icaoIdLookup, `recorded, `sent, `writesLeft
      ensures Valid() && recorded == Snapshot(global, subs, Cutoff(now))
      ensures locationMessages == PutAll(old(locationMessages), recorded)
      ensures Wrote(SnapshotMessages(subs, Snapshot(global, subs, Cutoff(now)), requestId), ok)
    {
      ok := true;
      var snap := TakeSnapshot(global, Cutoff(now));
      SnapshotOnePerIcao(global, subs, Cutoff(now));
      if |snap| > 0 {
        ok := SendPlaneMessage(PlaneLocations(AsEntries(snap), requestId));
        RecordNew(snap);
      }
      if ok {
        ok := SendPlaneMessage(SyncComplete(subs, |snap|, requestId));
      }
    }

    /** set-sub-tile-list. A list with an unknown tile gives one error and changes nothing
        else. A valid one replaces the subscriptions, and what is written is an ack, the
        snapshot if there is one and a completion with its size, as far as writes succeed. The
        slice keeps its length as nulls, and the snapshot is appended. */
    method SetSubscribedTiles(list: seq<string>, requestId: string, global: seq<Location>, now: int) returns (ok: bool)
      requires Valid() && OnePerIcao(global)
      modifies this
      ensures Valid()
      ensures Wrote(Output(SettingsOf(), old(View()), SetSub(list, requestId, global, now)), ok)
      ensures !AllValid(SettingsOf(), list) ==> View() == old(View())
      ensures AllValid(SettingsOf(), list) ==>
          && subs == TilesOf(list)
          && recorded == (if old(writesLeft) > 0 then Snapshot(global, subs, Cutoff(now)) else [])
          && locationMessages == PutAll(Cleared(old(locationMessages)), recorded)
    {
      var invalid := FindInvalid(list);
      if invalid.Some? {
        ok := SendPlaneMessage(Error("Unknown Tile: " + invalid.value));
        return;
      }
      var tiles := set t | t in list;
      ok := ReplaceSubscriptions(tiles, requestId, global, now);
    }

    method ReplaceSubscriptions(tiles: set<string>, requestId: string, global: seq<Location>, now: int) returns (ok: bool)
      requires Valid() && OnePerIcao(global) && tiles <= grid
      modifies this
      ensures Valid() && subs == tiles
      ensures Wrote(SyncMessages(tiles, Snapshot(global, tiles, Cutoff(now)), requestId), ok)
      ensures recorded == if old(writesLeft) > 0 then Snapshot(global, tiles, Cutoff(now)) else []
      ensures locationMessages == PutAll(Cleared(old(locationMessages)), recorded)
    {
      subs := tiles;
      ok := SendPlaneMessage(AckSub(subs, requestId));
      ClearBatch();
      if ok {
        ok := SendSnapshot(requestId, global, now);
      }
    }

    method RecordAll(ls: seq<Location>)
      requires Valid()
      modifies `locationMessages, `icaoIdLookup, `recorded
      ensures Valid() && View() == Recording(old(View()), ls)
    {
      ghost var was := View();
      assert was.recorded + [] == was.recorded;
      for n := 0 to |ls|
        invariant Valid() && View() == Recording(was, ls[..n])
      {
        assert ls[..n + 1] == ls[..n] + [ls[n]];
        RecordingNext(was, ls[..n], ls[n]);
        Record(ls[n]);
      }
      assert ls[..|ls|] == ls;
    }

    /** send-all: everything waiting, brought up to date with the global list, is delivered
        at once, then a completion with the number of matching aircraft. */
    method SendAllSubscribed(global: seq<Location>, now: int) returns (ok: bool)
      requires Valid()
      modifies this
      ensures Valid() && subs == old(subs) && recorded == [] && locationMessages == []
      ensures Delivers(PutAll(old(locationMessages), Snapshot(global, subs, Cutoff(now))),
                       LatestOf(old(recorded) + Snapshot(global, subs, Cutoff(now))))
      ensures Wrote(Output(SettingsOf(), old(View()), SendAll(global, now)), ok)
    {
      var snap := Collect(global, Cutoff(now));
      ok := FlushAndComplete(|snap|);
    }

    /** Bring what waits up to date with the global list. */
    method Collect(global: seq<Location>, cutoff: Option<int>) returns (snap: seq<Location>)
      requires Valid()
      modifies `locationMessages, `icaoIdLookup, `recorded
      ensures Valid() && snap == Snapshot(global, subs, cutoff) && View() == Recording(old(View()), snap)
      ensures Delivers(locationMessages, LatestOf(recorded))
    {
      snap := TakeSnapshot(global, cutoff);
      RecordAll(snap);
      PendingDelivered(locationMessages, icaoIdLookup);
    }

    method FlushAndComplete(matching: nat) returns (ok: bool)
      requires Valid()
      modifies `locationMessages, `icaoIdLookup, `recorded, `sent, `writesLeft
      ensures Valid() && recorded == [] && locationMessages == []
      ensures Wrote(Flushed(old(locationMessages)) + [SyncComplete(subs, matching, "")], ok)
    {
      ghost var flushed := Flushed(locationMessages);
      ok := FlushBatch();
      if ok {
        CutAppended(old(sent), flushed, [SyncComplete(subs, matching, "")], old(writesLeft));
        ok := SendPlaneMessage(SyncComplete(subs, matching, ""));
      }
    }

    method FlushBatch() returns (ok: bool)
      requires Valid()
      modifies `locationMessages, `icaoIdLookup, `recorded, `sent, `writesLeft
      ensures Valid() && recorded == [] && locationMessages == []
      ensures Wrote(Flushed(old(locationMessages)), ok)
    {
      ok := true;
      if |locationMessages| > 0 {
        ok := SendPlaneMessage(PlaneLocations(locationMessages, ""));
        ResetBatch();
      } else {
        EmptyBatch();
      }
    }

    /** grid-planes: queue every aircraft of a tile; it goes out with the next flush. */
    method GridPlanes(what: string, global: seq<Location>) returns (ok: bool)
      requires Valid()
      modifies this
      ensures Valid() && subs == old(subs)
      ensures View() == if what in gridNames then Recording(old(View()), OnTile(global, what)) else old(View())
      ensures Wrote(if what in gridNames then [] else [Error("Unknown Tile: " + what)], ok)
    {
      ok := true;
      if what in gridNames {
        QueueTile(what, global);
      } else {
        ok := SendPlaneMessage(Error("Unknown Tile: " + what));
      }
    }

    method QueueTile(what: string, global: seq<Location>)
      requires Valid()
      modifies `locationMessages, `icaoIdLookup, `recorded
      ensures Valid() && View() == Recording(old(View()), OnTile(global, what))
    {
      ghost var was := View();
      assert was.recorded + [] == was.recorded;
      for n := 0 to |global|
        invariant Valid() && View() == Recording(was, OnTile(global[..n], what))
      {
        OnTileNext(global, n, what);
        RecordingNext(was, OnTile(global[..n], what), global[n]);
        if what == global[n].tileLocation {
          Record(global[n]);
        }
      }
      assert global[..|global|] == global;
    }

    method TickAdjust(tick: int) returns (ok: bool)
      requires Valid()
      modifies `currentSendTick, `sent, `writesLeft
      ensures Valid() && View() == old(View())
      ensures currentSendTick == (if tick > sendTickDuration then tick else sendTickDuration)
      ensures Wrote([Reply("Set Tick Rate")], ok)
    {
      currentSendTick := if tick > sendTickDuration then tick else sendTickDuration;
      ok := SendPlaneMessage(Reply("Set Tick Rate"));
    }

    method Send(what: Response) returns (ok: bool)
      requires Valid()
      modifies `sent, `writesLeft
      ensures Valid() && View() == old(View()) && Wrote([what], ok)
    {
      ok := SendPlaneMessage(what);
    }

    /** One event: what is written, as far as writes succeed, and the new state. */
    method Dispatch(e: Event) returns (ok: bool)
      requires Valid() && EventSound(e) && !e.Exit?
      modifies this
      ensures Valid()
      ensures Wrote(Output(SettingsOf(), old(View()), e), ok)
      ensures ok ==> View() == AbstractStep(SettingsOf(), old(View()), e)
    {
      match e
      case Sub(what) => ok := Subscribe(what);
      case Unsub(what) => ok := Unsubscribe(what);
      case SetSub(list, requestId, global, now) => ok := SetSubscribedTiles(list, requestId, global, now);
      case SubList => ok := Send(SubTiles(subs));
      case SendAll(global, now) => ok := SendAllSubscribed(global, now);
      case GridTile(what, global) => ok := GridPlanes(what, global);
      case Adjust(tick) => ok := TickAdjust(tick);
      case Answer(what) => ok := Send(Reply(what));
      case Live(l, highLow) =>
        PutAllNext(locationMessages, [], l);
        assert [] + [l] == [l];
        ok := HandleLocation(l, highLow);
      case SendTick => ok := Tick();
    }

    /** The loop: what the client is sent is what the events make it send, up to the write
        that fails; and until the client leaves or a write fails, the slice and its index stand
        for the latest location per ICAO recorded since the last flush or reset. */
    method Loop(events: seq<Event>) returns (handled: nat, ok: bool)
      requires Valid() && View() == START
      requires forall e :: e in events ==> EventSound(e)
      modifies this
      ensures Valid() && handled <= |events|
      ensures ok && handled < |events| ==> events[handled].Exit?
      ensures Wrote(Outputs(SettingsOf(), events[..handled]), ok)
      ensures ok ==> View() == AbstractRun(SettingsOf(), events[..handled])
      ensures ok ==>
          Pending(locationMessages, icaoIdLookup) == LatestOf(AbstractRun(SettingsOf(), events[..handled]).recorded)
    {
      handled := 0;
      while handled < |events| && !events[handled].Exit?
        invariant Valid() && handled <= |events|
        invariant View() == AbstractRun(SettingsOf(), events[..handled])
        invariant Wrote(Outputs(SettingsOf(), events[..handled]), true)
      {
        ghost var before, out := Outputs(SettingsOf(), events[..handled]), Output(SettingsOf(), View(), events[handled]);
        RunPrefix(SettingsOf(), events, handled);
        CutAppended(old(sent), before, out, old(writesLeft));
        ok := Dispatch(events[handled]);
        handled := handled + 1;
        if !ok {
          return;
        }
      }
      ok := true;
    }
  }
}
