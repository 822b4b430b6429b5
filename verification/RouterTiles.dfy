/** The tile of a cached aircraft when several workers merge side by side: which updates, and in
    which order, can move it away from the tile of the last low message. */
module RouterTiles {
  import opened Basics
  import opened PlaneMerge
  import opened Router
  import opened RouterFeeds
  import opened LockedMerge
  import opened RouterConcurrency
  import opened PublishOrder
  import opened RouterInterleavings

  /** What a write adds to the updates skipped since the last low write, whatever the worker
      loaded. */
  function SkippedAfter(cfg: Config, u: PlaneLocation, item: Option<PlaneLocation>, skipped: seq<PlaneLocation>): seq<PlaneLocation> {
    match item
    case None => []
    case Some(last) =>
      if !IsLocationPossible(last, u, cfg.bearing) then skipped
      else if IsSignificant(last, u) then []
      else skipped + [u]
  }

  function SkippedStep(cfg: Config, s: System, a: Action, icao: string, skipped: seq<PlaneLocation>): seq<PlaneLocation> {
    if a.Write? && PhaseOf(s, a.worker).Loaded? && PhaseOf(s, a.worker).update.icao == icao
    then SkippedAfter(cfg, PhaseOf(s, a.worker).update, PhaseOf(s, a.worker).item, skipped)
    else skipped
  }

  /** The accepted updates about an aircraft that were written since its last low write, in the
      order of the writes. */
  function SkippedIn(cfg: Config, acts: seq<Action>, icao: string): seq<PlaneLocation> {
    if |acts| == 0 then []
    else
      var before := acts[..|acts| - 1];
      SkippedStep(cfg, RunAll(RouterOps(cfg), before), acts[|acts| - 1], icao, SkippedIn(cfg, before, icao))
  }

  /** r has the tile of the last low record written, but for the updates skipped since. */
  ghost predicate TileOk(writes: seq<seq<Publication>>, icao: string, r: PlaneLocation, skipped: seq<PlaneLocation>) {
    && LastLow(writes, icao).Some?
    && |skipped| == Behind(writes, icao)
    && r.tileLocation == TileAfter(LowOf(writes[LastLow(writes, icao).value], icao).value.tileLocation, skipped)
  }

  lemma TileElsewhere(writes: seq<seq<Publication>>, ps: seq<Publication>, icao: string, r: PlaneLocation, skipped: seq<PlaneLocation>)
    requires TileOk(writes, icao, r, skipped) && LowOf(ps, icao).None? && !About(ps, icao)
    ensures TileOk(writes + [ps], icao, r, skipped)
  {
    assert (writes + [ps])[..|writes|] == writes;
  }

  lemma TileLow(writes: seq<seq<Publication>>, ps: seq<Publication>, icao: string, l: PlaneLocation, r: PlaneLocation)
    requires LowOf(ps, icao) == Some(l) && r.tileLocation == l.tileLocation
    ensures TileOk(writes + [ps], icao, r, [])
  {
    assert (writes + [ps])[..|writes|] == writes;
  }

  lemma TileHigh(writes: seq<seq<Publication>>, ps: seq<Publication>, icao: string, last: PlaneLocation, u: PlaneLocation,
                 r: PlaneLocation, skipped: seq<PlaneLocation>)
    requires TileOk(writes, icao, last, skipped) && LowOf(ps, icao).None? && About(ps, icao)
    requires r.tileLocation == if u.tileLocation != "" then u.tileLocation else last.tileLocation
    ensures TileOk(writes + [ps], icao, r, skipped + [u])
  {
    assert (writes + [ps])[..|writes|] == writes;
    TileAfterNext(LowOf(writes[LastLow(writes, icao).value], icao).value.tileLocation, skipped, u);
  }

  lemma MergedTile(cfg: Config, writes: seq<seq<Publication>>, u: PlaneLocation, last: PlaneLocation, skipped: seq<PlaneLocation>)
    requires last.icao == u.icao && TileOk(writes, u.icao, last, skipped) && IsLocationPossible(last, u, cfg.bearing)
    ensures TileOk(writes + [WrittenBy(cfg, u, Some(last))], u.icao, MergeFields(last, u), SkippedAfter(cfg, u, Some(last), skipped))
  {
    var merged := MergeFields(last, u);
    OnFeeds(cfg, merged, u.icao);
    if IsSignificant(last, u) {
      TileLow(writes, OnBothFeeds(cfg, merged), u.icao, merged, merged);
    } else {
      TileHigh(writes, OnHighFeed(cfg, merged), u.icao, last, u, merged, skipped);
    }
  }

  lemma OwnTile(cfg: Config, writes: seq<seq<Publication>>, u: PlaneLocation, item: Option<PlaneLocation>,
                entry: Option<PlaneLocation>, skipped: seq<PlaneLocation>)
    requires item.Some? ==> item.value.icao == u.icao && TileOk(writes, u.icao, item.value, skipped)
    requires entry.Some? ==> TileOk(writes, u.icao, entry.value, skipped)
    ensures var after := EntryAfter(cfg, u, item, entry);
            after.Some? ==> TileOk(writes + [WrittenBy(cfg, u, item)], u.icao, after.value, SkippedAfter(cfg, u, item, skipped))
  {
    match item
    case None =>
      OnFeeds(cfg, u, u.icao);
      TileLow(writes, OnBothFeeds(cfg, u), u.icao, u, Tagged(u));
    case Some(last) =>
      if IsLocationPossible(last, u, cfg.bearing) {
        MergedTile(cfg, writes, u, last, skipped);
      } else if entry.Some? {
        TileElsewhere(writes, [], u.icao, entry.value, skipped);
      }
  }

  lemma OtherTile(cfg: Config, writes: seq<seq<Publication>>, u: PlaneLocation, item: Option<PlaneLocation>, icao: string,
                  r: PlaneLocation, skipped: seq<PlaneLocation>)
    requires icao != u.icao && (item.Some? ==> item.value.icao == u.icao) && TileOk(writes, icao, r, skipped)
    ensures TileOk(writes + [WrittenBy(cfg, u, item)], icao, r, skipped)
  {
    match item
    case None =>
      OnFeeds(cfg, u, icao);
      TileElsewhere(writes, WrittenBy(cfg, u, item), icao, r, skipped);
    case Some(last) =>
      OnFeeds(cfg, MergeFields(last, u), icao);
      TileElsewhere(writes, WrittenBy(cfg, u, item), icao, r, skipped);
  }

  // --- the invariant --------------------------------------------------------------------------

  type Skips = string -> seq<PlaneLocation>

  ghost predicate EntryTile(s: System, tr: Trace, skips: Skips, icao: string) {
    KeyOf(s, icao).entry.Some? ==> TileOk(tr.writes, icao, KeyOf(s, icao).entry.value, skips(icao))
  }

  ghost predicate LoadedTile(s: System, tr: Trace, skips: Skips, w: nat) {
    var p := PhaseOf(s, w);
    p.Loaded? && p.item.Some? ==> TileOk(tr.writes, p.update.icao, p.item.value, skips(p.update.icao))
  }

  ghost predicate Tiles(s: System, tr: Trace, skips: Skips) {
    (forall icao :: EntryTile(s, tr, skips, icao)) && (forall w: nat :: LoadedTile(s, tr, skips, w))
  }

  ghost predicate Steps(cfg: Config, s: System, a: Action, skips: Skips, after: Skips) {
    forall icao :: after(icao) == SkippedStep(cfg, s, a, icao, skips(icao))
  }

  /** A step other than a write writes nothing, and what a worker has loaded then was cached. */
  lemma QuietStep(ops: Ops, s: System, a: Action, tr: Trace, icao: string, w: nat)
    requires !a.Write?
    ensures var t := Next(ops, s, a);
            && TraceStep(ops, s, a, tr).writes == tr.writes
            && (KeyOf(t, icao).entry.Some? ==> KeyOf(t, icao).entry == KeyOf(s, icao).entry)
            && (PhaseOf(t, w).Loaded? && PhaseOf(t, w) != PhaseOf(s, w) ==>
                  PhaseOf(t, w).item == KeyOf(s, ops.key(PhaseOf(t, w).update)).entry)
  {
  }

  lemma StepKeepsTiles(cfg: Config, s: System, a: Action, tr: Trace, skips: Skips, after: Skips)
    requires Tiles(s, tr, skips) && Views(s, tr) && Inv(RouterOps(cfg), s) && Steps(cfg, s, a, skips, after)
    ensures Tiles(Next(RouterOps(cfg), s, a), TraceStep(RouterOps(cfg), s, a, tr), after)
  {
    var ops := RouterOps(cfg);
    var t, tr' := Next(ops, s, a), TraceStep(ops, s, a, tr);
    if a.Write? && PhaseOf(s, a.worker).Loaded? {
      WriteKeepsTiles(cfg, s, a.worker, tr, skips, after);
    } else if a.Write? {
      SameTiles(s, tr, skips, after);
    } else {
      forall icao
        ensures EntryTile(t, tr', after, icao)
      {
        assert EntryTile(s, tr, skips, icao);
        QuietStep(ops, s, a, tr, icao, 0);
      }
      forall w: nat
        ensures LoadedTile(t, tr', after, w)
      {
        var icao := if PhaseOf(t, w).Loaded? then PhaseOf(t, w).update.icao else "";
        assert LoadedTile(s, tr, skips, w) && EntryTile(s, tr, skips, icao);
        QuietStep(ops, s, a, tr, icao, w);
      }
    }
  }

  lemma SameTiles(s: System, tr: Trace, skips: Skips, after: Skips)
    requires Tiles(s, tr, skips) && forall icao :: after(icao) == skips(icao)
    ensures Tiles(s, tr, after)
  {
    forall icao
      ensures EntryTile(s, tr, after, icao)
    {
      assert EntryTile(s, tr, skips, icao);
    }
    forall w: nat
      ensures LoadedTile(s, tr, after, w)
    {
      assert LoadedTile(s, tr, skips, w);
    }
  }

  lemma WriteKeepsTiles(cfg: Config, s: System, w: nat, tr: Trace, skips: Skips, after: Skips)
    requires Tiles(s, tr, skips) && Views(s, tr) && Inv(RouterOps(cfg), s) && Steps(cfg, s, Write(w), skips, after)
    requires PhaseOf(s, w).Loaded?
    ensures Tiles(Next(RouterOps(cfg), s, Write(w)), TraceStep(RouterOps(cfg), s, Write(w), tr), after)
  {
    var ops := RouterOps(cfg);
    var t, tr' := Next(ops, s, Write(w)), TraceStep(ops, s, Write(w), tr);
    var u, item := PhaseOf(s, w).update, PhaseOf(s, w).item;
    assert LoadedView(s, tr, w) && LoadedTile(s, tr, skips, w);
    WriteExact(cfg, s, w);
    assert tr'.writes == tr.writes + [WrittenBy(cfg, u, item)];
    forall icao
      ensures EntryTile(t, tr', after, icao)
    {
      assert EntryTile(s, tr, skips, icao);
      if icao == u.icao {
        OwnTile(cfg, tr.writes, u, item, KeyOf(s, icao).entry, skips(icao));
      } else if KeyOf(s, icao).entry.Some? {
        OtherTile(cfg, tr.writes, u, item, icao, KeyOf(s, icao).entry.value, skips(icao));
      }
    }
    forall v: nat
      ensures LoadedTile(t, tr', after, v)
    {
      assert LoadedTile(s, tr, skips, v);
      if v != w && PhaseOf(s, v).Loaded? && PhaseOf(s, v).item.Some? {
        LockedApart(ops, s, v, w);
        var icao := PhaseOf(s, v).update.icao;
        OtherTile(cfg, tr.writes, u, item, icao, PhaseOf(s, v).item.value, skips(icao));
      }
    }
  }

  lemma {:induction false} TilesAlways(cfg: Config, acts: seq<Action>)
    ensures Tiles(RunAll(RouterOps(cfg), acts), TraceOf(RouterOps(cfg), acts), icao => SkippedIn(cfg, acts, icao))
  {
    var after: Skips := icao => SkippedIn(cfg, acts, icao);
    if |acts| > 0 {
      var before := acts[..|acts| - 1];
      var skips: Skips := icao => SkippedIn(cfg, before, icao);
      TilesAlways(cfg, before);
      ViewsAlways(cfg, before);
      RouterOpsLawful(cfg);
      InvAlways(RouterOps(cfg), before);
      StepKeepsTiles(cfg, RunAll(RouterOps(cfg), before), acts[|acts| - 1], TraceOf(RouterOps(cfg), before), skips, after);
    }
  }

  /** In every interleaving, with evictions, the cached tile is that of the last low record
      written if and only if no update skipped since named a tile, or the last that did named
      the same; and exactly that many writes were skipped. */
  lemma CachedTileExact(cfg: Config, acts: seq<Action>, icao: string)
    ensures var s, tr := RunAll(RouterOps(cfg), acts), TraceOf(RouterOps(cfg), acts);
            KeyOf(s, icao).entry.Some? ==>
              && LastLow(tr.writes, icao).Some?
              && var low := LowOf(tr.writes[LastLow(tr.writes, icao).value], icao).value.tileLocation;
                 var cached, skipped := KeyOf(s, icao).entry.value.tileLocation, SkippedIn(cfg, acts, icao);
                 && |skipped| == Behind(tr.writes, icao)
                 && cached == TileAfter(low, skipped)
                 && (cached == low <==> LastNamed(skipped).None? || LastNamed(skipped) == Some(low))
  {
    TilesAlways(cfg, acts);
    assert EntryTile(RunAll(RouterOps(cfg), acts), TraceOf(RouterOps(cfg), acts), icao => SkippedIn(cfg, acts, icao), icao);
  }

  /** And of the feed: with all workers idle and the last low message not overtaken, a reader of
      the low feed has the cached tile under the same condition. */
  lemma LowFeedTileExact(cfg: Config, acts: seq<Action>, icao: string, s: System, tr: Trace) returns (p: nat)
    requires s == RunAll(RouterOps(cfg), acts) && tr == TraceOf(RouterOps(cfg), acts)
    requires KeyOf(s, icao).entry.Some? && forall w: nat :: PhaseOf(s, w).Idle?
    ensures |tr.tickets| == |s.feed| && p < |s.feed| && Some(tr.tickets[p]) == LastLow(tr.writes, icao)
    ensures !Overtaken(s, tr, icao, p) ==>
              && LastOn(s.feed, Low, icao).Some?
              && var low, skipped := LastOn(s.feed, Low, icao).value.tileLocation, SkippedIn(cfg, acts, icao);
                 KeyOf(s, icao).entry.value.tileLocation == low <==> LastNamed(skipped).None? || LastNamed(skipped) == Some(low)
  {
    CachedTileExact(cfg, acts, icao);
    p := LowFeedExact(cfg, acts, icao, s, tr, LastLow(tr.writes, icao).value);
  }
}
