/** The two feeds of the router over whole runs: what a reader of the low feed may rely on. */
module RouterFeeds {
  import opened Basics
  import opened PlaneMerge
  import opened Router

  // --- every low message is also on the high feed -----------------------------------

  predicate MirroredAt(ps: seq<Publication>, i: nat)
    requires i < |ps|
  {
    && (ps[i].topic.Low? ==> i + 1 < |ps| && ps[i + 1] == Publication(High, ps[i].record))
    && (ps[i].topic.TileLow? ==> i + 1 < |ps| && ps[i + 1] == Publication(TileHigh(ps[i].topic.tile), ps[i].record))
  }

  predicate LowMirrored(ps: seq<Publication>) {
    forall i :: 0 <= i < |ps| ==> MirroredAt(ps, i)
  }

  lemma MirrorAppend(ps: seq<Publication>, qs: seq<Publication>)
    requires LowMirrored(ps) && LowMirrored(qs)
    ensures LowMirrored(ps + qs)
  {
    var rs := ps + qs;
    forall i | 0 <= i < |rs|
      ensures MirroredAt(rs, i)
    {
      if i < |ps| {
        assert MirroredAt(ps, i);
      } else {
        assert MirroredAt(qs, i - |ps|);
      }
    }
  }

  lemma FeedsMirrored(cfg: Config, r: PlaneLocation)
    ensures LowMirrored(OnBothFeeds(cfg, r)) && LowMirrored(OnHighFeed(cfg, r))
  {
  }

  /** Whatever appears on a low topic appears on the matching high topic, in every run. */
  lemma {:induction false} LowIsOnHigh(cfg: Config, es: seq<Event>)
    ensures LowMirrored(Run(cfg, es).published)
  {
    if |es| > 0 {
      LowIsOnHigh(cfg, es[..|es| - 1]);
      var s := Run(cfg, es[..|es| - 1]);
      if es[|es| - 1].Message? {
        var u := es[|es| - 1].update;
        match EffectOf(cfg, s.samples, u)
        case Inserted =>
          FeedsMirrored(cfg, u);
          MirrorAppend(s.published, OnBothFeeds(cfg, u));
        case Significant =>
          FeedsMirrored(cfg, MergeFields(s.samples[u.icao], u));
          MirrorAppend(s.published, OnBothFeeds(cfg, MergeFields(s.samples[u.icao], u)));
        case Insignificant =>
          FeedsMirrored(cfg, MergeFields(s.samples[u.icao], u));
          MirrorAppend(s.published, OnHighFeed(cfg, MergeFields(s.samples[u.icao], u)));
        case _ =>
      }
    }
  }

  // --- the low feed as a bounded-staleness view ------------------------------------------

  /** The last low message about an aircraft, and how many accepted updates since then
      were too insignificant for the low feed. */
  datatype LowView = Nothing | LowView(record: PlaneLocation, behind: nat)

  function LowStep(cfg: Config, s: State, e: Event, icao: string, v: LowView): LowView {
    if !e.Message? || e.update.icao != icao then v
    else
      match EffectOf(cfg, s.samples, e.update)
      case Inserted => LowView(e.update, 0)
      case Significant => LowView(MergeFields(s.samples[icao], e.update), 0)
      case Insignificant => if v.LowView? then v.(behind := v.behind + 1) else v
      case _ => v
  }

  function LowViewOf(cfg: Config, es: seq<Event>, icao: string): LowView {
    if |es| == 0 then Nothing
    else LowStep(cfg, Run(cfg, es[..|es| - 1]), es[|es| - 1], icao, LowViewOf(cfg, es[..|es| - 1], icao))
  }

  /** The last record about an aircraft on a topic. */
  function LastOn(ps: seq<Publication>, topic: Topic, icao: string): Option<PlaneLocation> {
    if |ps| == 0 then None
    else
      var p := ps[|ps| - 1];
      if p.topic == topic && p.record.icao == icao then Some(p.record) else LastOn(ps[..|ps| - 1], topic, icao)
  }

  predicate WithinReal(a: Reading<real>, b: Reading<real>, bound: real) {
    a.has ==> b.has && Abs(b.value - a.value) <= bound
  }

  predicate WithinInt(aHas: bool, a: int, bHas: bool, b: int, bound: int) {
    aHas ==> bHas && -bound <= b - a <= bound
  }

  /** The cached record c is at most k insignificant updates away from the low record l. */
  predicate Stale(l: PlaneLocation, c: PlaneLocation, k: nat) {
    && WithinReal(l.heading, c.heading, k as real)
    && WithinInt(l.altitude.has, l.altitude.value.level, c.altitude.has, c.altitude.value.level, 10 * k)
    && WithinInt(l.verticalRate.has, l.verticalRate.value, c.verticalRate.has, c.verticalRate.value, 180 * k)
    && (l.velocity.has ==> c.velocity.has && c.velocity.value == l.velocity.value)
    && c.flightStatus.value == l.flightStatus.value
    && c.onGround.value == l.onGround.value
    && c.special.value == l.special.value
    && c.squawk.value == l.squawk.value
  }

  lemma StaleRefl(l: PlaneLocation)
    ensures Stale(l, l, 0) && Stale(l, Tagged(l), 0)
  {
  }

  /** One insignificant update moves the cached record by one step of each threshold. */
  lemma InsignificantStep(last: PlaneLocation, u: PlaneLocation)
    requires !IsSignificant(last, u)
    ensures Stale(last, MergeFields(last, u), 1)
  {
  }

  lemma StaleAdd(l: PlaneLocation, c: PlaneLocation, d: PlaneLocation, k: nat)
    requires Stale(l, c, k) && Stale(c, d, 1)
    ensures Stale(l, d, k + 1)
  {
  }

  /** Bounded staleness, for every run with evictions: while an aircraft is cached there is
      a last low message about it, it is the last such message on the low topic, and the
      cached record is within its number of skipped updates of that message. */
  lemma {:induction false} LowFeedIsBoundedStale(cfg: Config, es: seq<Event>, icao: string)
    ensures var s := Run(cfg, es);
            var v := LowViewOf(cfg, es, icao);
            && (icao in s.samples ==> v.LowView? && s.samples[icao].icao == icao && Stale(v.record, s.samples[icao], v.behind))
            && LastOn(s.published, Low, icao) == (if v.LowView? then Some(v.record) else None)
  {
    if |es| > 0 {
      LowFeedIsBoundedStale(cfg, es[..|es| - 1], icao);
      var e := es[|es| - 1];
      if e.Message? {
        LowFeedIsBoundedStale(cfg, es[..|es| - 1], e.update.icao);
        StalenessKept(cfg, Run(cfg, es[..|es| - 1]), e.update, icao, LowViewOf(cfg, es[..|es| - 1], icao));
      }
    }
  }

  lemma StalenessKept(cfg: Config, s: State, u: PlaneLocation, icao: string, v: LowView)
    requires icao in s.samples ==> v.LowView? && s.samples[icao].icao == icao && Stale(v.record, s.samples[icao], v.behind)
    requires u.icao in s.samples ==> s.samples[u.icao].icao == u.icao
    requires LastOn(s.published, Low, icao) == (if v.LowView? then Some(v.record) else None)
    ensures var t := Handle(cfg, s, u);
            var w := LowStep(cfg, s, Message(u), icao, v);
            && (icao in t.samples ==> w.LowView? && t.samples[icao].icao == icao && Stale(w.record, t.samples[icao], w.behind))
            && LastOn(t.published, Low, icao) == (if w.LowView? then Some(w.record) else None)
  {
    match EffectOf(cfg, s.samples, u)
    case Inserted =>
      LastOnBoth(s.published, cfg, u, icao);
      StaleRefl(u);
    case Significant =>
      LastOnBoth(s.published, cfg, MergeFields(s.samples[u.icao], u), icao);
      StaleRefl(MergeFields(s.samples[u.icao], u));
    case Insignificant =>
      var last := s.samples[u.icao];
      LastOnHigh(s.published, cfg, MergeFields(last, u), icao);
      if u.icao == icao {
        InsignificantStep(last, u);
        StaleAdd(v.record, last, MergeFields(last, u), v.behind);
      }
    case _ =>
  }

  lemma LastOnSkips(ps: seq<Publication>, p: Publication, icao: string)
    ensures LastOn(ps + [p], Low, icao)
         == if p.topic == Low && p.record.icao == icao then Some(p.record) else LastOn(ps, Low, icao)
  {
    assert (ps + [p])[..|ps|] == ps;
  }

  lemma LastOnBoth(ps: seq<Publication>, cfg: Config, r: PlaneLocation, icao: string)
    ensures LastOn(ps + OnBothFeeds(cfg, r), Low, icao) == if r.icao == icao then Some(r) else LastOn(ps, Low, icao)
  {
    var a, b := Publication(Low, r), Publication(High, r);
    LastOnSkips(ps, a, icao);
    LastOnSkips(ps + [a], b, icao);
    if cfg.spreadUpdates {
      var c, d := Publication(TileLow(r.tileLocation), r), Publication(TileHigh(r.tileLocation), r);
      LastOnSkips(ps + [a] + [b], c, icao);
      LastOnSkips(ps + [a] + [b] + [c], d, icao);
      assert ps + OnBothFeeds(cfg, r) == ps + [a] + [b] + [c] + [d];
    } else {
      assert ps + OnBothFeeds(cfg, r) == ps + [a] + [b];
    }
  }

  lemma LastOnHigh(ps: seq<Publication>, cfg: Config, r: PlaneLocation, icao: string)
    ensures LastOn(ps + OnHighFeed(cfg, r), Low, icao) == LastOn(ps, Low, icao)
  {
    var b := Publication(High, r);
    LastOnSkips(ps, b, icao);
    if cfg.spreadUpdates {
      var d := Publication(TileHigh(r.tileLocation), r);
      LastOnSkips(ps + [b], d, icao);
      assert ps + OnHighFeed(cfg, r) == ps + [b] + [d];
    } else {
      assert ps + OnHighFeed(cfg, r) == ps + [b];
    }
  }

  // --- the tile -------------------------------------------------------------------------------

  /** The updates accepted since the last low message, all too insignificant for it. */
  function SkippedSince(cfg: Config, es: seq<Event>, icao: string): seq<PlaneLocation> {
    if |es| == 0 then []
    else
      var before, e := es[..|es| - 1], es[|es| - 1];
      var skipped := SkippedSince(cfg, before, icao);
      if !e.Message? || e.update.icao != icao then skipped
      else
        match EffectOf(cfg, Run(cfg, before).samples, e.update)
        case Inserted => []
        case Significant => []
        case Insignificant => skipped + [e.update]
        case _ => skipped
  }

  /** The last tile that an update named. */
  function LastNamed(us: seq<PlaneLocation>): Option<string> {
    if |us| == 0 then None
    else if us[|us| - 1].tileLocation != "" then Some(us[|us| - 1].tileLocation)
    else LastNamed(us[..|us| - 1])
  }

  function TileAfter(tile: string, us: seq<PlaneLocation>): string {
    if LastNamed(us).Some? then LastNamed(us).value else tile
  }

  lemma TileAfterNext(tile: string, us: seq<PlaneLocation>, u: PlaneLocation)
    ensures TileAfter(tile, us + [u]) == if u.tileLocation != "" then u.tileLocation else TileAfter(tile, us)
  {
    assert (us + [u])[..|us|] == us;
  }

  /** The tile is not bounded: in every run the cached tile is that of the last low message if
      and only if no skipped update named a tile, or the last that did named the same. */
  lemma {:induction false} LowTileExact(cfg: Config, es: seq<Event>, icao: string)
    ensures icao in Run(cfg, es).samples ==>
              var low, skipped := LowViewOf(cfg, es, icao), SkippedSince(cfg, es, icao);
              var cached := Run(cfg, es).samples[icao].tileLocation;
              && low.LowView? && |skipped| == low.behind
              && cached == TileAfter(low.record.tileLocation, skipped)
              && (cached == low.record.tileLocation
                  <==> LastNamed(skipped).None? || LastNamed(skipped) == Some(low.record.tileLocation))
  {
    if |es| > 0 {
      var before, e := es[..|es| - 1], es[|es| - 1];
      LowTileExact(cfg, before, icao);
      if e.Message? {
        LowFeedIsBoundedStale(cfg, before, e.update.icao);
        if e.update.icao == icao {
          TileStep(cfg, Run(cfg, before), e.update, LowViewOf(cfg, before, icao), SkippedSince(cfg, before, icao));
        }
      }
    }
  }

  lemma TileStep(cfg: Config, s: State, u: PlaneLocation, v: LowView, skipped: seq<PlaneLocation>)
    requires u.icao in s.samples ==>
               && v.LowView? && s.samples[u.icao].icao == u.icao
               && s.samples[u.icao].tileLocation == TileAfter(v.record.tileLocation, skipped)
    ensures var t, w := Handle(cfg, s, u), LowStep(cfg, s, Message(u), u.icao, v);
            u.icao in t.samples ==>
              && w.LowView?
              && t.samples[u.icao].tileLocation ==
                   TileAfter(w.record.tileLocation,
                             match EffectOf(cfg, s.samples, u)
                             case Inserted => [] case Significant => [] case Insignificant => skipped + [u] case _ => skipped)
  {
    match EffectOf(cfg, s.samples, u)
    case Insignificant => TileAfterNext(v.record.tileLocation, skipped, u);
    case _ =>
  }

  /** An insignificant update that changes the tile does so without a newer location. */
  lemma TileChangesUnseen(last: PlaneLocation, u: PlaneLocation)
    requires !IsSignificant(last, u)
    ensures MergeFields(last, u).tileLocation != last.tileLocation
       <==> u.tileLocation != "" && u.tileLocation != last.tileLocation
    ensures MergeFields(last, u).tileLocation != last.tileLocation ==> u.location.at <= last.location.at
  {
  }

  /** And there are such updates: any airborne record with any other tile in an update
      that reports nothing new. */
  lemma TileChangePossible(last: PlaneLocation, tile: string)
    requires tile != "" && tile != last.tileLocation
    requires !last.onGround.value
    ensures !IsSignificant(last, last.(tileLocation := tile))
    ensures MergeFields(last, last.(tileLocation := tile)).tileLocation == tile != last.tileLocation
  {
  }
}
