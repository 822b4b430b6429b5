/** What a websocket client gets for its subscriptions, over runs and key by key: a key is the name
    of a tile, or "all", followed by "_low" or "_high". */
module WsDelivery {
  import opened Basics
  import opened PendingMap
  import opened WsProtocol

  /** The two feeds that live locations come from. */
  datatype Speed = Low | High

  function Suffix(s: Speed): string {
    if s.Low? then "_low" else "_high"
  }

  datatype Update = Update(location: Location, speed: Speed)

  /** What the subscription to a tile, or to all of them, at one speed is meant to bring. */
  predicate Meant(tile: string, s: Speed, u: Update) {
    u.speed == s && (tile == "all" || u.location.tileLocation == tile)
  }

  // --- keys -------------------------------------------------------------------------------------

  lemma KeysDiffer(a: string, b: string)
    ensures a + "_low" != b + "_high"
  {
    assert (a + "_low")[|a| + 3] == 'w' && (b + "_high")[|b| + 4] == 'h';
    assert |a + "_low"| == |a| + 4 && |b + "_high"| == |b| + 5;
  }

  lemma KeysAgree(a: string, b: string, s: Speed)
    ensures a + Suffix(s) == b + Suffix(s) ==> a == b
  {
    assert (a + Suffix(s))[..|a|] == a && (b + Suffix(s))[..|b|] == b;
    if a + Suffix(s) == b + Suffix(s) {
      assert |a| == |b|;
    }
  }

  /** Two keys are the same exactly when tile and speed are. */
  lemma KeyExact(a: string, s: Speed, b: string, t: Speed)
    ensures a + Suffix(s) == b + Suffix(t) <==> a == b && s == t
  {
    KeysDiffer(a, b);
    KeysDiffer(b, a);
    KeysAgree(a, b, s);
  }

  /** One key brings exactly what it is meant to. */
  lemma OneKey(tile: string, s: Speed, u: Update)
    ensures TileMatchesSubs({tile + Suffix(s)}, u.location.tileLocation, Suffix(u.speed)) <==> Meant(tile, s, u)
  {
    KeyExact(u.location.tileLocation, u.speed, tile, s);
    KeyExact("all", u.speed, tile, s);
  }

  /** Several subscriptions bring what each of them does, and no subscription brings nothing. */
  lemma MoreKeys(subs: set<string>, others: set<string>, tile: string, highLow: string)
    ensures TileMatchesSubs(subs + others, tile, highLow) <==> TileMatchesSubs(subs, tile, highLow) || TileMatchesSubs(others, tile, highLow)
    ensures !TileMatchesSubs({}, tile, highLow)
  {
  }

  // --- live locations -----------------------------------------------------------------------------

  function LiveEvents(us: seq<Update>): (es: seq<Event>)
    ensures |es| == |us| && forall i :: 0 <= i < |us| ==> es[i] == Live(us[i].location, Suffix(us[i].speed))
  {
    seq(|us|, i requires 0 <= i < |us| => Live(us[i].location, Suffix(us[i].speed)))
  }

  /** The locations among the updates that a subscription is meant to bring. */
  function Brought(tile: string, s: Speed, us: seq<Update>): seq<Location> {
    if |us| == 0 then []
    else
      var u := us[|us| - 1];
      Brought(tile, s, us[..|us| - 1]) + if Meant(tile, s, u) then [u.location] else []
  }

  lemma NothingRecorded(s: Abstract)
    requires SliceSound(s) && s.messages == []
    ensures s.recorded == []
  {
    if |s.recorded| > 0 {
      var l := s.recorded[|s.recorded| - 1];
      assert l.icao in LatestOf(s.recorded);
    }
  }

  lemma LiveTaken(c: Settings, st: Abstract, tile: string, s: Speed, u: Update, e: Event)
    requires c.sendTick > 0 && st.subs == {tile + Suffix(s)} && e == Live(u.location, Suffix(u.speed))
    ensures AbstractStep(c, st, e) == if Meant(tile, s, u) then Recording(st, [u.location]) else st
  {
    OneKey(tile, s, u);
  }

  lemma RunNext(c: Settings, es: seq<Event>, e: Event, all: seq<Event>)
    requires all == es + [e]
    ensures AbstractRun(c, all) == AbstractStep(c, AbstractRun(c, es), e)
  {
    assert all[..|es|] == es;
  }

  lemma BroughtNext(tile: string, s: Speed, us: seq<Update>, n: nat)
    requires |us| == n + 1
    ensures Brought(tile, s, us) == if Meant(tile, s, us[n]) then Brought(tile, s, us[..n]) + [us[n].location] else Brought(tile, s, us[..n])
  {
  }

  lemma LiveEventsNext(es: seq<Event>, us: seq<Update>, n: nat, e: Event)
    requires |us| == n + 1 && e == Live(us[n].location, Suffix(us[n].speed))
    ensures es + LiveEvents(us) == es + LiveEvents(us[..n]) + [e]
  {
  }

  lemma LiveRecordedNext(c: Settings, es: seq<Event>, e: Event, tile: string, s: Speed, u: Update, start: Abstract, ls: seq<Location>)
    requires c.sendTick > 0 && start == Abstract({tile + Suffix(s)}, [], []) && e == Live(u.location, Suffix(u.speed))
    requires AbstractRun(c, es) == Recording(start, ls)
    ensures AbstractRun(c, es + [e]) == Recording(start, if Meant(tile, s, u) then ls + [u.location] else ls)
  {
    RunNext(c, es, e, es + [e]);
    LiveTaken(c, Recording(start, ls), tile, s, u, e);
    LiveStep(start, ls, u.location);
  }

  lemma {:induction false} LiveRecorded(c: Settings, es: seq<Event>, tile: string, s: Speed, us: seq<Update>, start: Abstract)
    requires c.sendTick > 0 && start == Abstract({tile + Suffix(s)}, [], []) && AbstractRun(c, es) == start
    ensures AbstractRun(c, es + LiveEvents(us)) == Recording(start, Brought(tile, s, us))
  {
    if |us| == 0 {
      assert es + LiveEvents(us) == es;
      assert start.recorded + [] == start.recorded;
    } else {
      var n := |us| - 1;
      var before, e := LiveEvents(us[..n]), Live(us[n].location, Suffix(us[n].speed));
      LiveRecorded(c, es, tile, s, us[..n], start);
      LiveEventsNext(es, us, n, e);
      BroughtNext(tile, s, us, n);
      LiveRecordedNext(c, es + before, e, tile, s, us[n], start, Brought(tile, s, us[..n]));
    }
  }

  lemma NothingWaits(c: Settings, es: seq<Event>, subs: set<string>)
    requires AbstractRun(c, es).subs == subs && AbstractRun(c, es).messages == []
    ensures AbstractRun(c, es) == Abstract(subs, [], [])
  {
    SliceDelivers(c, es);
    NothingRecorded(AbstractRun(c, es));
  }

  lemma LiveStep(start: Abstract, ls: seq<Location>, l: Location)
    ensures Recording(Recording(start, ls), [l]) == Recording(start, ls + [l])
  {
    RecordingNext(start, ls, l);
    PutAllNext(PutAll(start.messages, ls), [], l);
    assert [] + [l] == [l];
  }

  /** A client whose only subscription is one key, with ticking on and nothing waiting: after any
      live locations the next tick sends the latest of each aircraft among those that the key is
      meant to bring, each once, and nothing else. */
  lemma TickBrings(c: Settings, es: seq<Event>, tile: string, s: Speed, us: seq<Update>) returns (m: seq<Option<Location>>)
    requires c.sendTick > 0
    requires AbstractRun(c, es).subs == {tile + Suffix(s)} && AbstractRun(c, es).messages == []
    ensures Output(c, AbstractRun(c, es + LiveEvents(us)), SendTick) == if Brought(tile, s, us) == [] then [] else [PlaneLocations(m, "")]
    ensures Delivers(m, LatestOf(Brought(tile, s, us))) && Nulls(m) == 0
  {
    var start, wanted := Abstract({tile + Suffix(s)}, [], []), Brought(tile, s, us);
    NothingWaits(c, es, {tile + Suffix(s)});
    LiveRecorded(c, es, tile, s, us, start);
    m := PutAll([], wanted);
    WaitingIs(c, start, wanted);
  }

  lemma WaitingIs(c: Settings, start: Abstract, ls: seq<Location>)
    requires start.recorded == [] && start.messages == []
    ensures Output(c, Recording(start, ls), SendTick) == if ls == [] then [] else [PlaneLocations(PutAll([], ls), "")]
    ensures Delivers(PutAll([], ls), LatestOf(ls)) && Nulls(PutAll([], ls)) == 0
  {
    AllPut(start.messages, ls, PutAll(start.messages, ls));
  }

  lemma AllPut(none: seq<Option<Location>>, ls: seq<Location>, m: seq<Option<Location>>)
    requires none == [] && m == PutAll(none, ls)
    ensures Delivers(m, LatestOf(ls)) && Nulls(m) == 0 && (m == [] <==> ls == [])
  {
    NullsPutAll(none, ls);
    NoneDelivers(none, []);
    PutAllDelivers(none, [], ls);
    assert [] + ls == ls;
  }

  lemma NoneDelivers(none: seq<Option<Location>>, ls: seq<Location>)
    requires none == [] && ls == []
    ensures Delivers(none, LatestOf(ls)) && Nulls(none) == 0
  {
  }

  /** One live location: the next tick sends it if and only if the key is meant to bring it. */
  lemma OneLocation(c: Settings, es: seq<Event>, tile: string, s: Speed, u: Update)
    requires c.sendTick > 0
    requires AbstractRun(c, es).subs == {tile + Suffix(s)} && AbstractRun(c, es).messages == []
    ensures Output(c, AbstractRun(c, es + [Live(u.location, Suffix(u.speed))]), SendTick)
         == if u.speed == s && (tile == "all" || u.location.tileLocation == tile) then [PlaneLocations([Some(u.location)], "")] else []
  {
    NothingWaits(c, es, {tile + Suffix(s)});
    LiveRecorded(c, es, tile, s, [u], AbstractRun(c, es));
    assert LiveEvents([u]) == [Live(u.location, Suffix(u.speed))];
    assert [u][..0] == [] && [u.location][..0] == [];
    assert PutAll([], [u.location]) == Put([], u.location) == [Some(u.location)];
  }

  /** With ticking off it is sent at once, under the same condition. */
  lemma AtOnce(c: Settings, es: seq<Event>, tile: string, s: Speed, u: Update)
    requires c.sendTick <= 0 && AbstractRun(c, es).subs == {tile + Suffix(s)}
    ensures Output(c, AbstractRun(c, es), Live(u.location, Suffix(u.speed)))
         == if u.speed == s && (tile == "all" || u.location.tileLocation == tile) then [PlaneLocationMsg(u.location)] else []
  {
    OneKey(tile, s, u);
  }

  /** Without a subscription nothing is sent. */
  lemma NoSubscription(c: Settings, es: seq<Event>, u: Update)
    requires AbstractRun(c, es).subs == {} && AbstractRun(c, es).messages == []
    ensures Output(c, AbstractRun(c, es), Live(u.location, Suffix(u.speed))) == []
    ensures Output(c, AbstractRun(c, es + [Live(u.location, Suffix(u.speed))]), SendTick) == []
  {
    var e := Live(u.location, Suffix(u.speed));
    RunNext(c, es, e, es + [e]);
    Unsubscribed(c, AbstractRun(c, es), e);
  }

  lemma Unsubscribed(c: Settings, st: Abstract, e: Event)
    requires st.subs == {} && e.Live?
    ensures Output(c, st, e) == [] && AbstractStep(c, st, e) == st
  {
    MoreKeys({}, {}, e.location.tileLocation, e.highLow);
  }

  // --- snapshots ------------------------------------------------------------------------------------

  /** The aircraft on a tile, or all of them, that were heard of recently enough at now; a maximum
      age of zero means that all were. */
  function RecentOn(c: Settings, tile: string, now: int, global: seq<Location>): seq<Location> {
    if |global| == 0 then []
    else
      var l := global[|global| - 1];
      RecentOn(c, tile, now, global[..|global| - 1])
      + if (tile == "all" || l.tileLocation == tile) && (c.maxAge > 0 ==> now - l.lastMsg <= c.maxAge) then [l] else []
  }

  lemma {:induction false} SnapshotIsRecent(c: Settings, tile: string, s: Speed, now: int, global: seq<Location>)
    ensures Snapshot(global, {tile + Suffix(s)}, CutoffAt(c, now)) == RecentOn(c, tile, now, global)
  {
    if |global| > 0 {
      var l := global[|global| - 1];
      SnapshotIsRecent(c, tile, s, now, global[..|global| - 1]);
      OneKey(tile, s, Update(l, Low));
      OneKey(tile, s, Update(l, High));
    }
  }

  /** A list of one tile brings an acknowledgement, the aircraft that are on it, whatever the speed,
      if there are any, and their number. */
  lemma OneTileSnapshot(c: Settings, s: Abstract, tile: string, speed: Speed, requestId: string, global: seq<Location>, now: int)
    requires tile + Suffix(speed) in c.grid
    ensures var key, snap := tile + Suffix(speed), RecentOn(c, tile, now, global);
            Output(c, s, SetSub([key], requestId, global, now))
            == [AckSub({key}, requestId)]
             + (if |snap| > 0 then [PlaneLocations(AsEntries(snap), requestId)] else [])
             + [SyncComplete({key}, |snap|, requestId)]
  {
    var key := tile + Suffix(speed);
    SnapshotIsRecent(c, tile, speed, now, global);
    assert TilesOf([key]) == {key};
    assert AllValid(c, [key]);
  }

  /** Asking for everything brings what waits, brought up to date with those aircraft, and their
      number. */
  lemma OneTileSendAll(c: Settings, s: Abstract, tile: string, speed: Speed, global: seq<Location>, now: int)
    requires s.subs == {tile + Suffix(speed)} && SliceSound(s)
    ensures var snap := RecentOn(c, tile, now, global);
            var m := PutAll(s.messages, snap);
            && Delivers(m, LatestOf(s.recorded + snap))
            && Output(c, s, SendAll(global, now))
            == (if |m| > 0 then [PlaneLocations(m, "")] else []) + [SyncComplete(s.subs, |snap|, "")]
  {
    SnapshotIsRecent(c, tile, speed, now, global);
    PutAllDelivers(s.messages, s.recorded, RecentOn(c, tile, now, global));
  }
}
