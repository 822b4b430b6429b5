/** The protocol of a websocket client as a reader of it sees it (planeProtocolHandler in
    cmd/pw_ws_broker/web.go): what each command, live location and tick makes the client
    send and remember, over whole runs. */
module WsProtocol {
  import opened Basics
  import opened PendingMap

  datatype Response =
    | AckSub(tiles: set<string>, requestId: string)
    | AckUnsub(tile: string)
    | Error(message: string)
    | PlaneLocationMsg(location: Location)
    | PlaneLocations(locations: seq<Option<Location>>, requestId: string)
    | SyncComplete(tiles: set<string>, aircraft: nat, requestId: string)
    | SubTiles(tiles: set<string>)
    | Reply(what: string)

  /** tileMatchesSubs */
  predicate TileMatchesSubs(subs: set<string>, tileLocation: string, highLow: string) {
    tileLocation + highLow in subs || "all" + highLow in subs
  }

  predicate LocationMatchesSubs(subs: set<string>, loc: Location) {
    TileMatchesSubs(subs, loc.tileLocation, "_low") || TileMatchesSubs(subs, loc.tileLocation, "_high")
  }

  predicate InSnapshot(subs: set<string>, cutoff: Option<int>, loc: Location) {
    !(cutoff.Some? && loc.lastMsg < cutoff.value) && LocationMatchesSubs(subs, loc)
  }

  /** The locations of the global list that a snapshot contains, in the order of the list. */
  function Snapshot(global: seq<Location>, subs: set<string>, cutoff: Option<int>): (snap: seq<Location>)
    ensures |snap| <= |global|
  {
    if |global| == 0 then []
    else
      var l := global[|global| - 1];
      Snapshot(global[..|global| - 1], subs, cutoff) + if InSnapshot(subs, cutoff, l) then [l] else []
  }

  lemma {:induction false} SnapshotExact(global: seq<Location>, subs: set<string>, cutoff: Option<int>, l: Location)
    ensures l in Snapshot(global, subs, cutoff) <==> l in global && InSnapshot(subs, cutoff, l)
  {
    if |global| > 0 {
      SnapshotExact(global[..|global| - 1], subs, cutoff, l);
      assert global == global[..|global| - 1] + [global[|global| - 1]];
    }
  }

  /** The global list is keyed by ICAO. */
  ghost predicate OnePerIcao(global: seq<Location>) {
    forall i, j :: 0 <= i < j < |global| ==> global[i].icao != global[j].icao
  }

  lemma {:induction false} SnapshotOnePerIcao(global: seq<Location>, subs: set<string>, cutoff: Option<int>)
    requires OnePerIcao(global)
    ensures OnePerIcao(Snapshot(global, subs, cutoff))
    ensures forall l :: l in Snapshot(global, subs, cutoff) ==> l in global
  {
    if |global| > 0 {
      var before, l := global[..|global| - 1], global[|global| - 1];
      SnapshotOnePerIcao(before, subs, cutoff);
      forall s | s in Snapshot(before, subs, cutoff)
        ensures s in global && s.icao != l.icao
      {
        var i :| 0 <= i < |before| && before[i] == s;
        assert global[i] == s;
      }
    }
  }

  function OnTile(global: seq<Location>, tile: string): seq<Location> {
    if |global| == 0 then []
    else
      OnTile(global[..|global| - 1], tile)
      + if global[|global| - 1].tileLocation == tile then [global[|global| - 1]] else []
  }

  lemma {:induction false} OnTileExact(global: seq<Location>, tile: string, l: Location)
    ensures l in OnTile(global, tile) <==> l in global && l.tileLocation == tile
  {
    if |global| > 0 {
      OnTileExact(global[..|global| - 1], tile, l);
      assert global == global[..|global| - 1] + [global[|global| - 1]];
    }
  }

  function AsEntries(ls: seq<Location>): seq<Option<Location>> {
    seq(|ls|, i requires 0 <= i < |ls| => Some(ls[i]))
  }

  /** What a valid set-sub-tile-list sends. */
  function SyncMessages(tiles: set<string>, snap: seq<Location>, requestId: string): seq<Response> {
    [AckSub(tiles, requestId)] + SnapshotMessages(tiles, snap, requestId)
  }

  function SnapshotMessages(tiles: set<string>, snap: seq<Location>, requestId: string): seq<Response> {
    (if |snap| > 0 then [PlaneLocations(AsEntries(snap), requestId)] else [])
    + [SyncComplete(tiles, |snap|, requestId)]
  }

  /** What the loop selects on: a command, a live location or the send tick. */
  datatype Event =
    | Exit
    | Sub(what: string)
    | Unsub(what: string)
    | SetSub(list: seq<string>, requestId: string, global: seq<Location>, now: int)
    | SubList
    | SendAll(global: seq<Location>, now: int)
    | GridTile(what: string, global: seq<Location>)
    | Adjust(tick: int)
    | Answer(what: string)
    | Live(location: Location, highLow: string)
    | SendTick

  ghost predicate EventSound(e: Event) {
    match e
    case SetSub(_, _, global, _) => OnePerIcao(global)
    case _ => true
  }

  /** The client as a reader of the protocol sees it: its subscriptions, the locations
      recorded since the last flush or reset, and the slice that waits to be sent. */
  datatype Abstract = Abstract(subs: set<string>, recorded: seq<Location>, messages: seq<Option<Location>>)

  datatype Settings = Settings(grid: set<string>, gridNames: set<string>, sendTick: int, maxAge: int)

  const START := Abstract({}, [], [])

  function CutoffAt(c: Settings, now: int): Option<int> {
    if c.maxAge > 0 then Some(now - c.maxAge) else None
  }

  predicate AllValid(c: Settings, list: seq<string>) {
    forall t :: t in list ==> t in c.grid
  }

  function FirstInvalid(c: Settings, list: seq<string>): (t: string)
    requires !AllValid(c, list)
    ensures t in list && t !in c.grid
  {
    if list[0] !in c.grid then list[0] else FirstInvalid(c, list[1..])
  }

  lemma {:induction false} FirstInvalidAt(c: Settings, list: seq<string>, n: nat)
    requires n < |list| && list[n] !in c.grid && forall i :: 0 <= i < n ==> list[i] in c.grid
    ensures !AllValid(c, list) && FirstInvalid(c, list) == list[n]
  {
    if n > 0 {
      FirstInvalidAt(c, list[1..], n - 1);
    }
  }

  function TilesOf(list: seq<string>): set<string> {
    set t | t in list
  }

  function Recording(s: Abstract, ls: seq<Location>): Abstract {
    s.(recorded := s.recorded + ls, messages := PutAll(s.messages, ls))
  }

  function RecordingOne(s: Abstract, l: Location): Abstract {
    s.(recorded := s.recorded + [l], messages := Put(s.messages, l))
  }

  lemma RecordingNext(s: Abstract, ls: seq<Location>, l: Location)
    ensures Recording(s, ls + [l]) == RecordingOne(Recording(s, ls), l)
  {
    PutAllNext(s.messages, ls, l);
    assert s.recorded + (ls + [l]) == s.recorded + ls + [l];
  }

  lemma OnTileNext(global: seq<Location>, n: nat, tile: string)
    requires n < |global|
    ensures OnTile(global[..n + 1], tile)
         == if global[n].tileLocation == tile then OnTile(global[..n], tile) + [global[n]] else OnTile(global[..n], tile)
  {
    assert global[..n + 1][..n] == global[..n];
  }

  function AbstractStep(c: Settings, s: Abstract, e: Event): Abstract {
    match e
    case Sub(what) => if what in c.grid then s.(subs := s.subs + {what}) else s
    case Unsub(what) => s.(subs := s.subs - {what})
    case SetSub(list, _, global, now) =>
      if AllValid(c, list) then
        Recording(Abstract(TilesOf(list), [], Cleared(s.messages)), Snapshot(global, TilesOf(list), CutoffAt(c, now)))
      else s
    case SendAll(_, _) => s.(recorded := [], messages := [])
    case GridTile(what, global) => if what in c.gridNames then Recording(s, OnTile(global, what)) else s
    case Live(l, highLow) =>
      if TileMatchesSubs(s.subs, l.tileLocation, highLow) && c.sendTick > 0 then Recording(s, [l]) else s
    case SendTick => s.(recorded := [], messages := [])
    case _ => s
  }

  /** A slice is sent if there is anything in it. */
  function Flushed(messages: seq<Option<Location>>): seq<Response> {
    if |messages| > 0 then [PlaneLocations(messages, "")] else []
  }

  /** What an event makes the client send. */
  function Output(c: Settings, s: Abstract, e: Event): seq<Response> {
    match e
    case Exit => []
    case Sub(what) => [if what in c.grid then AckSub({what}, "") else Error("Unknown Tile: " + what)]
    case Unsub(what) => [if what in s.subs then AckUnsub(what) else Error("Not Subbed to: " + what)]
    case SetSub(list, requestId, global, now) =>
      if AllValid(c, list) then SyncMessages(TilesOf(list), Snapshot(global, TilesOf(list), CutoffAt(c, now)), requestId)
      else [Error("Unknown Tile: " + FirstInvalid(c, list))]
    case SubList => [SubTiles(s.subs)]
    case SendAll(global, now) =>
      var snap := Snapshot(global, s.subs, CutoffAt(c, now));
      Flushed(PutAll(s.messages, snap)) + [SyncComplete(s.subs, |snap|, "")]
    case GridTile(what, _) => if what in c.gridNames then [] else [Error("Unknown Tile: " + what)]
    case Adjust(_) => [Reply("Set Tick Rate")]
    case Answer(what) => [Reply(what)]
    case Live(l, highLow) =>
      if TileMatchesSubs(s.subs, l.tileLocation, highLow) && c.sendTick <= 0 then [PlaneLocationMsg(l)] else []
    case SendTick => Flushed(s.messages)
  }

  function AbstractRun(c: Settings, es: seq<Event>): Abstract {
    if |es| == 0 then START else AbstractStep(c, AbstractRun(c, es[..|es| - 1]), es[|es| - 1])
  }

  /** Everything a run makes the client send, in order. */
  function Outputs(c: Settings, es: seq<Event>): seq<Response> {
    if |es| == 0 then []
    else Outputs(c, es[..|es| - 1]) + Output(c, AbstractRun(c, es[..|es| - 1]), es[|es| - 1])
  }

  // --- what is delivered ------------------------------------------------------------------

  /** In every run the slice delivers the latest location of each aircraft recorded since
      the last flush or reset, each once. */
  lemma {:induction false} SliceDelivers(c: Settings, es: seq<Event>)
    ensures SliceSound(AbstractRun(c, es))
  {
    if |es| > 0 {
      SliceDelivers(c, es[..|es| - 1]);
      StepSound(c, AbstractRun(c, es[..|es| - 1]), es[|es| - 1]);
    }
  }

  ghost predicate SliceSound(s: Abstract) {
    Delivers(s.messages, LatestOf(s.recorded))
  }

  lemma RecordingSound(s: Abstract, ls: seq<Location>)
    requires SliceSound(s)
    ensures SliceSound(Recording(s, ls))
  {
    PutAllDelivers(s.messages, s.recorded, ls);
  }

  lemma StepSound(c: Settings, s: Abstract, e: Event)
    requires SliceSound(s)
    ensures SliceSound(AbstractStep(c, s, e))
  {
    match e
    case SetSub(list, _, global, now) =>
      RecordingSound(Abstract(TilesOf(list), [], Cleared(s.messages)), Snapshot(global, TilesOf(list), CutoffAt(c, now)));
    case GridTile(what, global) => RecordingSound(s, OnTile(global, what));
    case Live(l, _) => RecordingSound(s, [l]);
    case _ =>
  }

  predicate Flushes(e: Event) {
    e.SendTick? || e.SendAll?
  }

  /** The slice that a tick or a send-all sends, and the locations that it stands for. */
  function FlushedSlice(c: Settings, s: Abstract, e: Event): seq<Option<Location>>
    requires Flushes(e)
  {
    if e.SendTick? then s.messages else PutAll(s.messages, Snapshot(e.global, s.subs, CutoffAt(c, e.now)))
  }

  function FlushedLocations(c: Settings, s: Abstract, e: Event): seq<Location>
    requires Flushes(e)
  {
    s.recorded + if e.SendTick? then [] else Snapshot(e.global, s.subs, CutoffAt(c, e.now))
  }

  /** Every flush of every run delivers exactly the pending map. */
  lemma FlushDelivers(c: Settings, es: seq<Event>, d: nat)
    requires d < |es| && Flushes(es[d])
    ensures var s := AbstractRun(c, es[..d]);
            && Delivers(FlushedSlice(c, s, es[d]), LatestOf(FlushedLocations(c, s, es[d])))
            && Flushed(FlushedSlice(c, s, es[d])) <= Output(c, s, es[d])
  {
    var s := AbstractRun(c, es[..d]);
    SliceDelivers(c, es[..d]);
    if es[d].SendAll? {
      PutAllDelivers(s.messages, s.recorded, Snapshot(es[d].global, s.subs, CutoffAt(c, es[d].now)));
    } else {
      assert s.recorded + [] == s.recorded;
    }
  }

  // --- null entries -----------------------------------------------------------------------

  /** Event i replaces the subscriptions while something waits in the slice. */
  predicate ClearsWaiting(c: Settings, es: seq<Event>, i: nat)
    requires i < |es|
  {
    es[i].SetSub? && AllValid(c, es[i].list) && AbstractRun(c, es[..i]).messages != []
  }

  /** ... and nothing was flushed from then until d. */
  ghost predicate ClearedBefore(c: Settings, es: seq<Event>, i: nat, d: nat)
    requires d <= |es|
  {
    i < d && ClearsWaiting(c, es, i) && forall j :: i < j < d ==> !Flushes(es[j])
  }

  lemma NullsStep(c: Settings, s: Abstract, e: Event)
    ensures Nulls(AbstractStep(c, s, e).messages) ==
            if Flushes(e) then 0
            else if e.SetSub? && AllValid(c, e.list) then |s.messages|
            else Nulls(s.messages)
  {
    match e
    case SetSub(list, _, global, now) =>
      NullsCleared(s.messages);
      NullsPutAll(Cleared(s.messages), Snapshot(global, TilesOf(list), CutoffAt(c, now)));
    case GridTile(what, global) => NullsPutAll(s.messages, OnTile(global, what));
    case Live(l, _) => NullsPutAll(s.messages, [l]);
    case _ =>
  }

  /** There are null entries exactly when a valid list came in over a slice that was not
      empty, and nothing was flushed since. */
  lemma {:induction false} NullsExact(c: Settings, es: seq<Event>, d: nat)
    requires d <= |es|
    ensures None in AbstractRun(c, es[..d]).messages <==> exists i: nat :: ClearedBefore(c, es, i, d)
  {
    if d > 0 {
      var p := d - 1;
      NullsExact(c, es, p);
      assert es[..d][..p] == es[..p];
      NullsStep(c, AbstractRun(c, es[..p]), es[p]);
      if ClearsWaiting(c, es, p) {
        assert ClearedBefore(c, es, p, d);
      } else if !Flushes(es[p]) {
        NullsUnchanged(c, es, p);
        assert forall i: nat :: ClearedBefore(c, es, i, d) ==> ClearedBefore(c, es, i, p);
        assert forall i: nat :: ClearedBefore(c, es, i, p) ==> ClearedBefore(c, es, i, d);
      }
    }
  }

  lemma NullsUnchanged(c: Settings, es: seq<Event>, p: nat)
    requires p < |es| && !Flushes(es[p]) && !ClearsWaiting(c, es, p)
    ensures var s := AbstractRun(c, es[..p]);
            Nulls(AbstractStep(c, s, es[p]).messages) == Nulls(s.messages)
  {
    NullsStep(c, AbstractRun(c, es[..p]), es[p]);
  }

  predicate HoldsNull(r: Response) {
    r.PlaneLocations? && None in r.locations
  }

  lemma SnapshotHasNoNull(tiles: set<string>, snap: seq<Location>, requestId: string)
    ensures forall r :: r in SyncMessages(tiles, snap, requestId) ==> !HoldsNull(r)
  {
    forall r | r in SyncMessages(tiles, snap, requestId)
      ensures !HoldsNull(r)
    {
      if r.PlaneLocations? {
        assert forall i :: 0 <= i < |snap| ==> AsEntries(snap)[i] == Some(snap[i]);
      }
    }
  }

  /** What the client is sent holds a null entry exactly when it is a flush, and a valid list
      came in over a slice that was not empty since the flush before. */
  lemma NullSentExact(c: Settings, es: seq<Event>, d: nat)
    requires d < |es|
    ensures (exists r :: r in Output(c, AbstractRun(c, es[..d]), es[d]) && HoldsNull(r))
       <==> Flushes(es[d]) && exists i: nat :: ClearedBefore(c, es, i, d)
  {
    var s := AbstractRun(c, es[..d]);
    var out := Output(c, s, es[d]);
    NullsExact(c, es, d);
    if Flushes(es[d]) {
      var m := FlushedSlice(c, s, es[d]);
      assert Nulls(m) == Nulls(s.messages) by {
        if es[d].SendAll? {
          NullsPutAll(s.messages, Snapshot(es[d].global, s.subs, CutoffAt(c, es[d].now)));
        }
      }
      if None in m {
        assert out[0] == PlaneLocations(m, "") && HoldsNull(out[0]);
      }
      assert forall r :: r in out && r.PlaneLocations? ==> r == PlaneLocations(m, "");
    } else if es[d].SetSub? && AllValid(c, es[d].list) {
      var tiles := TilesOf(es[d].list);
      SnapshotHasNoNull(tiles, Snapshot(es[d].global, tiles, CutoffAt(c, es[d].now)), es[d].requestId);
    }
  }

  /** A valid list for which there is no aircraft turns whatever waits into nulls. */
  lemma WaitingBecomesNull(c: Settings, s: Abstract, requestId: string, now: int)
    ensures var e := SetSub([], requestId, [], now);
            && AbstractStep(c, s, e) == Abstract({}, [], Cleared(s.messages))
            && Output(c, s, e) == [AckSub({}, requestId), SyncComplete({}, 0, requestId)]
  {
    assert TilesOf([]) == {};
  }

  lemma FirstLocationWaits(c: Settings, l: Location)
    requires "all_low" in c.grid && c.sendTick > 0
    ensures AbstractStep(c, START, Sub("all_low")) == Abstract({"all_low"}, [], [])
    ensures var s := Abstract({"all_low"}, [], []);
            AbstractStep(c, s, Live(l, "_low")) == Abstract({"all_low"}, [l], [Some(l)]) && Output(c, s, Live(l, "_low")) == []
  {
    assert "all" + "_low" == "all_low";
    assert [l][..0] == [];
    assert PutAll([], [l]) == Put([], l) == [Some(l)];
  }

  /** Such a run: one aircraft is waiting when the client asks for a list of tiles, and the
      next tick sends one null entry and nothing else. */
  lemma NullIsSent(c: Settings, l: Location, requestId: string, now: int)
    requires "all_low" in c.grid && c.sendTick > 0
    ensures var es := [Sub("all_low"), Live(l, "_low"), SetSub([], requestId, [], now), SendTick];
            && Output(c, AbstractRun(c, es[..3]), es[3]) == [PlaneLocations([None], "")]
            && PlaneLocations([None], "") in Outputs(c, es)
  {
    var e0, e1, e2, e3 := Sub("all_low"), Live(l, "_low"), SetSub([], requestId, [], now), SendTick;
    var es := [e0, e1, e2, e3];
    FirstLocationWaits(c, l);
    RunPrefix(c, es, 0);
    RunPrefix(c, es, 1);
    var s := Abstract({"all_low"}, [l], [Some(l)]);
    assert AbstractRun(c, es[..2]) == s;
    WaitingBecomesNull(c, s, requestId, now);
    RunPrefix(c, es, 2);
    assert Cleared([Some(l)]) == [None];
    RunPrefix(c, es, 3);
    assert es[..4] == es;
  }

  lemma RunPrefix(c: Settings, es: seq<Event>, n: nat)
    requires n < |es|
    ensures AbstractRun(c, es[..n + 1]) == AbstractStep(c, AbstractRun(c, es[..n]), es[n])
    ensures Outputs(c, es[..n + 1]) == Outputs(c, es[..n]) + Output(c, AbstractRun(c, es[..n]), es[n])
  {
    assert es[..n + 1][..n] == es[..n];
  }
}
