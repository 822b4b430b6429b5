/** What is on every topic of the router, message by message: the high feed is complete, the low
    feed is the significant part of it, and the tile topics split both when updates are spread. */
module RouterTopics {
  import opened Basics
  import opened PlaneMerge
  import opened Router
  import opened LockedMerge
  import opened RouterConcurrency
  import opened PublishOrder
  import opened RouterInterleavings

  /** The records published on a topic, in order. */
  function OnTopic(ps: seq<Publication>, topic: Topic): seq<PlaneLocation> {
    if |ps| == 0 then []
    else
      var p := ps[|ps| - 1];
      OnTopic(ps[..|ps| - 1], topic) + if p.topic == topic then [p.record] else []
  }

  lemma {:induction false} OnTopicAppend(ps: seq<Publication>, qs: seq<Publication>, topic: Topic)
    ensures OnTopic(ps + qs, topic) == OnTopic(ps, topic) + OnTopic(qs, topic)
  {
    if |qs| == 0 {
      assert ps + qs == ps;
    } else {
      var n := |qs| - 1;
      OnTopicAppend(ps, qs[..n], topic);
      assert (ps + qs)[..|ps| + n] == ps + qs[..n];
    }
  }

  lemma OnTopicNext(ps: seq<Publication>, p: Publication, topic: Topic)
    ensures OnTopic(ps + [p], topic) == OnTopic(ps, topic) + if p.topic == topic then [p.record] else []
  {
    assert (ps + [p])[..|ps|] == ps;
  }

  /** r has been published as it ought to be: on the high feed, and on the low one if it is
      news; and on the topics of its tile in the same way, if updates are spread. */
  ghost predicate PublishedOnce(ps: seq<Publication>, r: PlaneLocation, news: bool, spread: bool) {
    && OnTopic(ps, High) == [r]
    && OnTopic(ps, Low) == (if news then [r] else [])
    && (forall tile :: OnTopic(ps, TileHigh(tile)) == if spread && tile == r.tileLocation then [r] else [])
    && (forall tile :: OnTopic(ps, TileLow(tile)) == if news && spread && tile == r.tileLocation then [r] else [])
  }

  lemma BothOnTopic(cfg: Config, r: PlaneLocation, topic: Topic)
    ensures OnTopic(OnBothFeeds(cfg, r), topic) == match topic
      case Low => [r]
      case High => [r]
      case TileLow(tile) => if cfg.spreadUpdates && tile == r.tileLocation then [r] else []
      case TileHigh(tile) => if cfg.spreadUpdates && tile == r.tileLocation then [r] else []
  {
    var a, b := Publication(Low, r), Publication(High, r);
    OnTopicNext([], a, topic);
    OnTopicNext([a], b, topic);
    assert [] + [a] == [a] && [a] + [b] == [a, b];
    if cfg.spreadUpdates {
      var c, d := Publication(TileLow(r.tileLocation), r), Publication(TileHigh(r.tileLocation), r);
      OnTopicNext([a, b], c, topic);
      OnTopicNext([a, b, c], d, topic);
      assert [a, b] + [c] == [a, b, c] && [a, b, c] + [d] == [a, b, c, d];
      assert OnBothFeeds(cfg, r) == [a, b, c, d];
    } else {
      assert OnBothFeeds(cfg, r) == [a, b];
    }
  }

  lemma HighOnTopic(cfg: Config, r: PlaneLocation, topic: Topic)
    ensures OnTopic(OnHighFeed(cfg, r), topic) == match topic
      case High => [r]
      case TileHigh(tile) => if cfg.spreadUpdates && tile == r.tileLocation then [r] else []
      case _ => []
  {
    var a := Publication(High, r);
    OnTopicNext([], a, topic);
    assert [] + [a] == [a];
    if cfg.spreadUpdates {
      var b := Publication(TileHigh(r.tileLocation), r);
      OnTopicNext([a], b, topic);
      assert [a] + [b] == [a, b];
      assert OnHighFeed(cfg, r) == [a, b];
    } else {
      assert OnHighFeed(cfg, r) == [a];
    }
  }

  lemma BothArePublished(cfg: Config, r: PlaneLocation)
    ensures PublishedOnce(OnBothFeeds(cfg, r), r, true, cfg.spreadUpdates)
  {
    BothOnTopic(cfg, r, High);
    BothOnTopic(cfg, r, Low);
    forall tile
      ensures OnTopic(OnBothFeeds(cfg, r), TileHigh(tile)) == if cfg.spreadUpdates && tile == r.tileLocation then [r] else []
      ensures OnTopic(OnBothFeeds(cfg, r), TileLow(tile)) == if cfg.spreadUpdates && tile == r.tileLocation then [r] else []
    {
      BothOnTopic(cfg, r, TileHigh(tile));
      BothOnTopic(cfg, r, TileLow(tile));
    }
  }

  lemma HighIsPublished(cfg: Config, r: PlaneLocation)
    ensures PublishedOnce(OnHighFeed(cfg, r), r, false, cfg.spreadUpdates)
  {
    HighOnTopic(cfg, r, High);
    HighOnTopic(cfg, r, Low);
    forall tile
      ensures OnTopic(OnHighFeed(cfg, r), TileHigh(tile)) == if cfg.spreadUpdates && tile == r.tileLocation then [r] else []
      ensures OnTopic(OnHighFeed(cfg, r), TileLow(tile)) == []
    {
      HighOnTopic(cfg, r, TileHigh(tile));
      HighOnTopic(cfg, r, TileLow(tile));
    }
  }

  // --- one worker -----------------------------------------------------------------------------

  /** What an update makes known: itself for a new aircraft, else the merge if the gate lets it
      through. */
  function Announces(cfg: Config, samples: map<string, PlaneLocation>, u: PlaneLocation): Option<PlaneLocation> {
    if u.icao == "" || u.removed then None
    else if u.icao !in samples then Some(u)
    else if IsLocationPossible(samples[u.icao], u, cfg.bearing) then Some(MergeFields(samples[u.icao], u))
    else None
  }

  /** An update is news about an aircraft that is new, or that it changes significantly. */
  predicate IsNews(samples: map<string, PlaneLocation>, u: PlaneLocation) {
    u.icao in samples ==> IsSignificant(samples[u.icao], u)
  }

  /** In numbers: what the merge has to change, or the update to report, to be news. */
  lemma NewsExact(last: PlaneLocation, u: PlaneLocation, m: PlaneLocation)
    requires m == MergeFields(last, u)
    ensures IsSignificant(last, u) <==>
              || (u.onGround.has && u.onGround.value)
              || (last.heading.has && !(-1.0 <= m.heading.value - last.heading.value <= 1.0))
              || (last.velocity.has && m.velocity.value != last.velocity.value)
              || (last.verticalRate.has && !(-180 <= m.verticalRate.value - last.verticalRate.value <= 180))
              || (last.altitude.has && !(-10 <= m.altitude.value.level - last.altitude.value.level <= 10))
              || (u.flightStatus.value != last.flightStatus.value && u.flightStatus.at > last.flightStatus.at)
              || (u.onGround.value != last.onGround.value && u.onGround.at > last.onGround.at)
              || m.special.value != last.special.value
              || (u.squawk.value != last.squawk.value && u.squawk.at > last.squawk.at)
              || (u.tileLocation != last.tileLocation && u.location.at > last.location.at)
  {
  }

  /** All records made known in a run, and those among them that are news. */
  function Announced(cfg: Config, es: seq<Event>, newsOnly: bool): seq<PlaneLocation> {
    if |es| == 0 then []
    else
      var before, e := es[..|es| - 1], es[|es| - 1];
      var samples := Run(cfg, before).samples;
      Announced(cfg, before, newsOnly)
      + if e.Message? && Announces(cfg, samples, e.update).Some? && (newsOnly ==> IsNews(samples, e.update))
        then [Announces(cfg, samples, e.update).value] else []
  }

  function OfTile(rs: seq<PlaneLocation>, tile: string): seq<PlaneLocation> {
    if |rs| == 0 then []
    else
      var r := rs[|rs| - 1];
      OfTile(rs[..|rs| - 1], tile) + if r.tileLocation == tile then [r] else []
  }

  lemma OfTileNext(rs: seq<PlaneLocation>, r: PlaneLocation, tile: string)
    ensures OfTile(rs + [r], tile) == OfTile(rs, tile) + if r.tileLocation == tile then [r] else []
  {
    assert (rs + [r])[..|rs|] == rs;
  }

  /** What one message adds to the publications. */
  lemma OneMessage(cfg: Config, s: State, u: PlaneLocation) returns (qs: seq<Publication>)
    ensures Handle(cfg, s, u).published == s.published + qs
    ensures Announces(cfg, s.samples, u).None? ==> qs == []
    ensures Announces(cfg, s.samples, u).Some? ==>
              PublishedOnce(qs, Announces(cfg, s.samples, u).value, IsNews(s.samples, u), cfg.spreadUpdates)
  {
    qs := [];
    match EffectOf(cfg, s.samples, u)
    case Inserted =>
      qs := OnBothFeeds(cfg, u);
      BothArePublished(cfg, u);
    case Significant =>
      qs := OnBothFeeds(cfg, MergeFields(s.samples[u.icao], u));
      BothArePublished(cfg, MergeFields(s.samples[u.icao], u));
    case Insignificant =>
      qs := OnHighFeed(cfg, MergeFields(s.samples[u.icao], u));
      HighIsPublished(cfg, MergeFields(s.samples[u.icao], u));
    case _ =>
  }

  ghost predicate FeedsAre(ps: seq<Publication>, all: seq<PlaneLocation>, news: seq<PlaneLocation>, spread: bool, tile: string) {
    && OnTopic(ps, High) == all
    && OnTopic(ps, Low) == news
    && OnTopic(ps, TileHigh(tile)) == (if spread then OfTile(all, tile) else [])
    && OnTopic(ps, TileLow(tile)) == (if spread then OfTile(news, tile) else [])
  }

  lemma FeedsGrow(ps: seq<Publication>, qs: seq<Publication>, all: seq<PlaneLocation>, news: seq<PlaneLocation>, spread: bool,
                  tile: string, r: PlaneLocation, isNews: bool)
    requires FeedsAre(ps, all, news, spread, tile) && PublishedOnce(qs, r, isNews, spread)
    ensures FeedsAre(ps + qs, all + [r], if isNews then news + [r] else news, spread, tile)
  {
    OnTopicAppend(ps, qs, High);
    OnTopicAppend(ps, qs, Low);
    OnTopicAppend(ps, qs, TileHigh(tile));
    OnTopicAppend(ps, qs, TileLow(tile));
    OfTileNext(all, r, tile);
    OfTileNext(news, r, tile);
  }

  /** In every run of one worker each topic holds exactly this, in this order: the high feed every
      record made known, the low feed those that are news, and when updates are spread the two
      topics of a tile those of its records. */
  lemma {:induction false} TopicsExact(cfg: Config, es: seq<Event>, tile: string)
    ensures FeedsAre(Run(cfg, es).published, Announced(cfg, es, false), Announced(cfg, es, true), cfg.spreadUpdates, tile)
  {
    if |es| > 0 {
      var before, e := es[..|es| - 1], es[|es| - 1];
      TopicsExact(cfg, before, tile);
      if e.Message? {
        var s := Run(cfg, before);
        var qs := OneMessage(cfg, s, e.update);
        if Announces(cfg, s.samples, e.update).Some? {
          FeedsGrow(s.published, qs, Announced(cfg, before, false), Announced(cfg, before, true), cfg.spreadUpdates, tile,
                    Announces(cfg, s.samples, e.update).value, IsNews(s.samples, e.update));
        }
      }
    }
  }

  // --- many workers -----------------------------------------------------------------------------

  /** What a worker makes known when it merges into the record that it loaded. */
  function Known(cfg: Config, u: PlaneLocation, item: Option<PlaneLocation>): Option<PlaneLocation> {
    match item
    case None => Some(u)
    case Some(last) => if IsLocationPossible(last, u, cfg.bearing) then Some(MergeFields(last, u)) else None
  }

  lemma WrittenExact(cfg: Config, u: PlaneLocation, item: Option<PlaneLocation>)
    ensures Known(cfg, u, item).None? ==> WrittenBy(cfg, u, item) == []
    ensures Known(cfg, u, item).Some? ==>
              PublishedOnce(WrittenBy(cfg, u, item), Known(cfg, u, item).value, item.None? || IsSignificant(item.value, u),
                            cfg.spreadUpdates)
  {
    match item
    case None => BothArePublished(cfg, u);
    case Some(last) =>
      BothArePublished(cfg, MergeFields(last, u));
      HighIsPublished(cfg, MergeFields(last, u));
  }

  lemma {:induction false} WritesStay(ops: Ops, acts: seq<Action>, i: nat)
    requires i <= |acts|
    ensures TraceOf(ops, acts[..i]).writes <= TraceOf(ops, acts).writes
  {
    if i < |acts| {
      var before := acts[..|acts| - 1];
      WritesStay(ops, before, i);
      assert before[..i] == acts[..i];
    } else {
      assert acts[..i] == acts;
    }
  }

  /** In every interleaving, once the worker is done with what it wrote in step i: its messages
      on the feed are the record that it made known, exactly once on each topic where it belongs,
      and nothing for an update that the gate turned down. */
  lemma WritePublished(cfg: Config, acts: seq<Action>, i: nat, before: System, t: nat, s: System, tr: Trace)
    requires i < |acts| && acts[i].Write? && before == RunAll(RouterOps(cfg), acts[..i]) && Enabled(RouterOps(cfg), before, acts[i])
    requires t == |TraceOf(RouterOps(cfg), acts[..i]).writes|
    requires s == RunAll(RouterOps(cfg), acts) && tr == TraceOf(RouterOps(cfg), acts) && Finished(s, tr, t)
    ensures |s.feed| == |tr.tickets| && t < |tr.writes|
    ensures var u, item := PhaseOf(before, acts[i].worker).update, PhaseOf(before, acts[i].worker).item;
            && (Known(cfg, u, item).None? ==> Part(s.feed, tr.tickets, t) == [])
            && (Known(cfg, u, item).Some? ==>
                  PublishedOnce(Part(s.feed, tr.tickets, t), Known(cfg, u, item).value,
                                item.None? || IsSignificant(item.value, u), cfg.spreadUpdates))
  {
    var ops, w := RouterOps(cfg), acts[i].worker;
    var u, item := PhaseOf(before, w).update, PhaseOf(before, w).item;
    assert acts[..i + 1][..i] == acts[..i];
    ViewsAlways(cfg, acts[..i]);
    assert LoadedView(before, TraceOf(ops, acts[..i]), w);
    WriteExact(cfg, before, w);
    assert TraceOf(ops, acts[..i + 1]).writes[t] == WrittenBy(cfg, u, item);
    WritesStay(ops, acts, i + 1);
    TraceAlways(ops, acts);
    assert WriteOk(s, tr, t);
    WrittenExact(cfg, u, item);
  }
}
