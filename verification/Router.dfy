/** The router of cmd/pw_router/worker.go: one record per aircraft, every update merged
    into it, and the result published on a full ("high") and a reduced ("low") feed. */
module Router {
  import opened Basics
  import opened PlaneMerge

  datatype Topic = Low | High | TileLow(tile: string) | TileHigh(tile: string)

  datatype Publication = Publication(topic: Topic, record: PlaneLocation)

  const SIG_HEADING_CHANGE := 1.0
  const SIG_VERTICAL_RATE_CHANGE := 180.0
  const SIG_ALTITUDE_CHANGE := 10.0

  function AbsInt(x: int): real {
    Abs(x as real)
  }

  /** isSignificant: compares an update with the record it was merged into. */
  predicate IsSignificant(last: PlaneLocation, candidate: PlaneLocation) {
    if candidate.onGround.has && candidate.onGround.value then true
    else if candidate.heading.has && last.heading.has
            && Abs(candidate.heading.value - last.heading.value) > SIG_HEADING_CHANGE
            && candidate.heading.at > last.heading.at then true
    else if candidate.velocity.has && last.velocity.has && candidate.velocity.value != last.velocity.value
            && candidate.velocity.at > last.velocity.at then true
    else if candidate.verticalRate.has && last.verticalRate.has
            && AbsInt(candidate.verticalRate.value - last.verticalRate.value) > SIG_VERTICAL_RATE_CHANGE
            && candidate.verticalRate.at > last.verticalRate.at then true
    else if candidate.altitude.has && last.altitude.has
            && AbsInt(candidate.altitude.value.level - last.altitude.value.level) > SIG_ALTITUDE_CHANGE
            && candidate.altitude.at > last.altitude.at then true
    else if candidate.flightStatus.value != last.flightStatus.value
            && candidate.flightStatus.at > last.flightStatus.at then true
    else if candidate.onGround.value != last.onGround.value && candidate.onGround.at > last.onGround.at then true
    else if candidate.special.value != last.special.value && candidate.special.at > last.special.at then true
    else if candidate.squawk.value != last.squawk.value && candidate.squawk.at > last.squawk.at then true
    else candidate.tileLocation != last.tileLocation && candidate.location.at > last.location.at
  }

  datatype Config = Config(spreadUpdates: bool, bearing: Bearing)

  datatype State = State(samples: map<string, PlaneLocation>, published: seq<Publication>)

  /** What one message does. */
  datatype Effect = Ignored | Inserted | Rejected | Significant | Insignificant

  function EffectOf(cfg: Config, samples: map<string, PlaneLocation>, u: PlaneLocation): Effect {
    if u.icao == "" || u.removed then Ignored
    else if u.icao !in samples then Inserted
    else if !IsLocationPossible(samples[u.icao], u, cfg.bearing) then Rejected
    else if IsSignificant(samples[u.icao], u) then Significant
    else Insignificant
  }

  /** The record of a new aircraft counts its first update. */
  function Tagged(u: PlaneLocation): PlaneLocation {
    u.(sourceTags := IncTag(u.sourceTags, u.sourceTag))
  }

  function OnBothFeeds(cfg: Config, r: PlaneLocation): seq<Publication> {
    [Publication(Low, r), Publication(High, r)]
    + if cfg.spreadUpdates then [Publication(TileLow(r.tileLocation), r), Publication(TileHigh(r.tileLocation), r)] else []
  }

  function OnHighFeed(cfg: Config, r: PlaneLocation): seq<Publication> {
    [Publication(High, r)] + if cfg.spreadUpdates then [Publication(TileHigh(r.tileLocation), r)] else []
  }

  /** A message's effect on the cache and what it publishes. */
  function Handle(cfg: Config, s: State, u: PlaneLocation): State {
    match EffectOf(cfg, s.samples, u)
    case Ignored => s
    case Rejected => s
    case Inserted => State(s.samples[u.icao := Tagged(u)], s.published + OnBothFeeds(cfg, u))
    case Significant =>
      var merged := MergeFields(s.samples[u.icao], u);
      State(s.samples[merged.icao := merged], s.published + OnBothFeeds(cfg, merged))
    case Insignificant =>
      var merged := MergeFields(s.samples[u.icao], u);
      State(s.samples[merged.icao := merged], s.published + OnHighFeed(cfg, merged))
  }

  /** The cache also forgets aircraft, at any time. */
  datatype Event = Message(update: PlaneLocation) | Evict(icao: string)

  function Step(cfg: Config, s: State, e: Event): State {
    match e
    case Message(u) => Handle(cfg, s, u)
    case Evict(icao) => s.(samples := s.samples - {icao})
  }

  function Run(cfg: Config, es: seq<Event>): State {
    if |es| == 0 then State(map[], []) else Step(cfg, Run(cfg, es[..|es| - 1]), es[|es| - 1])
  }

  class Worker {
    const cfg: Config
    var samples: map<string, PlaneLocation>
    var published: seq<Publication>

    constructor (cfg: Config)
      ensures this.cfg == cfg && View() == State(map[], [])
    {
      this.cfg := cfg;
      samples, published := map[], [];
    }

    function View(): State
      reads this
    {
      State(samples, published)
    }

    method Publish(topic: Topic, r: PlaneLocation)
      modifies `published
      ensures published == old(published) + [Publication(topic, r)]
    {
      published := published + [Publication(topic, r)];
    }

    method PublishBoth(r: PlaneLocation)
      modifies `published
      ensures published == old(published) + OnBothFeeds(cfg, r)
    {
      Publish(Low, r);
      Publish(High, r);
      if cfg.spreadUpdates {
        Publish(TileLow(r.tileLocation), r);
        Publish(TileHigh(r.tileLocation), r);
      }
    }

    method HandleInsignificantUpdate(r: PlaneLocation)
      modifies `published
      ensures published == old(published) + OnHighFeed(cfg, r)
    {
      Publish(High, r);
      if cfg.spreadUpdates {
        Publish(TileHigh(r.tileLocation), r);
      }
    }

    /** handleMsg, from the decoded update on. */
    method HandleMsg(update: PlaneLocation)
      modifies this
      ensures View() == Handle(cfg, old(View()), update)
    {
      if update.icao == "" {
        return;
      }
      if update.removed {
        return;
      }
      if update.icao !in samples {
        samples := samples[update.icao := update.(sourceTags := IncTag(update.sourceTags, update.sourceTag))];
        PublishBoth(update);
        return;
      }
      var lastRecord := samples[update.icao];
      var merged, err := MergePlaneLocations(lastRecord, update, cfg.bearing);
      if err.Some? {
        return;
      }
      samples := samples[merged.icao := merged];
      if IsSignificant(lastRecord, update) {
        PublishBoth(merged);
      } else {
        HandleInsignificantUpdate(merged);
      }
    }

    method Sweep(icao: string)
      modifies `samples
      ensures View() == Step(cfg, old(View()), Evict(icao))
    {
      samples := samples - {icao};
    }
  }
}
