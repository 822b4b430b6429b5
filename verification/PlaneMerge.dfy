/** Plane records and their merge: lib/export/types.go. Every field that carries its own
    update time is one value with that time; a nil pointer is None. */
module PlaneMerge {
  import opened Basics

  /** Nanoseconds. */
  type Time = int

  datatype Stamped<T> = Stamped(value: T, at: Time)

  /** A HasX flag with X and Updates.X. */
  datatype Reading<T> = Reading(has: bool, value: T, at: Time)

  datatype LatLon = LatLon(lat: real, lon: real)

  datatype Altitude = Altitude(level: int, units: string)

  datatype NavGroup = NavGroup(mcp: Option<int>, fms: Option<int>, qnh: Option<real>, heading: Option<real>, modes: seq<string>)

  datatype EhsGroup = EhsGroup(ias: Option<int>, tas: Option<int>, mach: Option<real>, roll: Option<real>,
                               magHeading: Option<real>, trackRate: Option<real>, baroRate: Option<int>, geomRate: Option<int>)

  datatype EnrichmentField =
    | Registration | CallSign | TypeCode | TypeCodeLong | Serial | RegisteredOwner
    | COFAOwner | EngineType | FlagCode | Operator | RouteCode

  datatype Segment = Segment(name: string, icaoCode: string)

  datatype PlaneLocation = PlaneLocation(
    icao: string,
    location: Reading<LatLon>,
    heading: Reading<real>,
    velocity: Reading<real>,
    altitude: Reading<Altitude>,
    verticalRate: Reading<int>,
    flightStatus: Reading<string>,
    onGround: Reading<bool>,
    special: Stamped<string>,
    squawk: Stamped<string>,
    nav: Stamped<NavGroup>,
    ehs: Stamped<EhsGroup>,
    isNew: bool,
    removed: bool,
    airframe: string,
    airframeType: string,
    sourceTag: string,
    tileLocation: string,
    sourceTags: map<string, int>,
    trackedSince: Time,
    lastMsg: Time,
    signalRssi: Option<real>,
    aircraftWidth: Option<real>,
    aircraftLength: Option<real>,
    enrichment: map<EnrichmentField, string>,
    segments: seq<Segment>)

  const UINT32 := 0x1_0000_0000

  const SECOND: Time := 1_000_000_000

  /** The initial bearing from one position to another, in degrees. */
  type Bearing = (LatLon, LatLon) -> real

  // --- the plausibility gate -----------------------------------------------------

  /** Go's math.Mod: the result has the sign of the dividend. */
  function GoMod(x: real, m: real): real
    requires m > 0.0
  {
    if x >= 0.0 then x - m * (x / m).Floor as real else -(-x - m * (-x / m).Floor as real)
  }

  function DeltaBearing(heading: real, bearing: real): real {
    Abs(GoMod(heading - bearing + 180.0, 360.0) - 180.0)
  }

  predicate IsLocationPossible(prev: PlaneLocation, next: PlaneLocation, bearing: Bearing) {
    if !(prev.location.has && next.location.has && prev.heading.has && next.heading.has) then true
    else if prev.location.value == next.location.value then true
    else if prev.lastMsg > next.lastMsg then false
    else if prev.location.at > next.location.at then false
    else DeltaBearing(prev.heading.value, bearing(prev.location.value, next.location.value)) < 90.0
  }

  // --- the merge -------------------------------------------------------------------

  function HasNav(n: NavGroup): bool {
    n.mcp.Some? || n.fms.Some? || n.qnh.Some? || n.heading.Some? || |n.modes| > 0
  }

  function HasEHS(e: EhsGroup): bool {
    e.ias.Some? || e.tas.Some? || e.mach.Some? || e.roll.Some? || e.magHeading.Some? || e.trackRate.Some?
    || e.baroRate.Some? || e.geomRate.Some?
  }

  /** Take a newer reading and note that there is one. */
  function Newer<T>(prev: Reading<T>, next: Reading<T>): Reading<T> {
    if next.has && next.at > prev.at then next else prev
  }

  /** Take a newer reading's value; the merge leaves the flag as it was. */
  function NewerValue<T>(prev: Reading<T>, next: Reading<T>): Reading<T> {
    if next.has && next.at > prev.at then Reading(prev.has, next.value, next.at) else prev
  }

  function MergeSquawk(prev: Stamped<string>, next: Stamped<string>): Stamped<string> {
    if next.at > prev.at && (next.value != "0" || next.at > prev.at + 5 * SECOND) then next else prev
  }

  function CountOf(tags: map<string, int>, tag: string): int {
    if tag in tags then tags[tag] else 0
  }

  /** Increment of a uint32 counter. */
  function Next32(c: int): int {
    if c == UINT32 - 1 then 0 else c + 1
  }

  function IncTag(tags: map<string, int>, tag: string): map<string, int> {
    tags[tag := Next32(CountOf(tags, tag))]
  }

  function MergeEnrichment(prev: map<EnrichmentField, string>, next: map<EnrichmentField, string>): map<EnrichmentField, string> {
    prev + map f | f in next && next[f] != "" :: next[f]
  }

  function NonZero(prev: Option<real>, next: Option<real>): Option<real> {
    if next.Some? && next.value != 0.0 then next else prev
  }

  /** The merge past the gate. */
  function MergeFields(prev: PlaneLocation, next: PlaneLocation): PlaneLocation {
    PlaneLocation(
      prev.icao,
      Newer(prev.location, next.location),
      Newer(prev.heading, next.heading),
      Newer(prev.velocity, next.velocity),
      Newer(prev.altitude, next.altitude),
      Newer(prev.verticalRate, next.verticalRate),
      NewerValue(prev.flightStatus, next.flightStatus),
      NewerValue(prev.onGround, next.onGround),
      if next.special.at > prev.special.at then next.special else prev.special,
      MergeSquawk(prev.squawk, next.squawk),
      if HasNav(next.nav.value) && next.nav.at > prev.nav.at then next.nav else prev.nav,
      if HasEHS(next.ehs.value) && next.ehs.at > prev.ehs.at then next.ehs else prev.ehs,
      false,
      false,
      if prev.airframe == "" then next.airframe else prev.airframe,
      if prev.airframeType == "" then next.airframeType else prev.airframeType,
      "merged",
      if next.tileLocation != "" then next.tileLocation else prev.tileLocation,
      IncTag(prev.sourceTags, next.sourceTag),
      if next.trackedSince < prev.trackedSince then next.trackedSince else prev.trackedSince,
      next.lastMsg,
      None,
      NonZero(prev.aircraftWidth, next.aircraftWidth),
      NonZero(prev.aircraftLength, next.aircraftLength),
      MergeEnrichment(prev.enrichment, next.enrichment),
      if |next.segments| > 0 then next.segments else prev.segments)
  }

  const ENRICHMENT_FIELDS := [Registration, CallSign, TypeCode, TypeCodeLong, Serial, RegisteredOwner,
                              COFAOwner, EngineType, FlagCode, Operator, RouteCode]

  lemma EveryFieldListed(f: EnrichmentField)
    ensures f in ENRICHMENT_FIELDS
  {
    var fs := ENRICHMENT_FIELDS;
    match f
    case Registration => assert f == fs[0];
    case CallSign => assert f == fs[1];
    case TypeCode => assert f == fs[2];
    case TypeCodeLong => assert f == fs[3];
    case Serial => assert f == fs[4];
    case RegisteredOwner => assert f == fs[5];
    case COFAOwner => assert f == fs[6];
    case EngineType => assert f == fs[7];
    case FlagCode => assert f == fs[8];
    case Operator => assert f == fs[9];
    case RouteCode => assert f == fs[10];
  }

  /** The loop over the enrichment pointers. */
  method MergeListed(prev: map<EnrichmentField, string>, next: map<EnrichmentField, string>, fs: seq<EnrichmentField>)
    returns (merged: map<EnrichmentField, string>)
    ensures forall f :: f in merged <==> f in prev || (f in fs && f in next && next[f] != "")
    ensures forall f :: f in merged ==>
      merged[f] == if f in fs && f in next && next[f] != "" then next[f] else prev[f]
  {
    merged := prev;
    for n := 0 to |fs|
      invariant forall f :: f in merged <==> f in prev || (f in fs[..n] && f in next && next[f] != "")
      invariant forall f :: f in merged ==>
        merged[f] == if f in fs[..n] && f in next && next[f] != "" then next[f] else prev[f]
    {
      var f := fs[n];
      assert fs[..n + 1] == fs[..n] + [f];
      if f in next && next[f] != "" {
        merged := merged[f := next[f]];
      }
    }
    assert fs[..|fs|] == fs;
  }

  method MergeEnrichmentFields(prev: map<EnrichmentField, string>, next: map<EnrichmentField, string>)
    returns (merged: map<EnrichmentField, string>)
    ensures merged == MergeEnrichment(prev, next)
  {
    merged := MergeListed(prev, next, ENRICHMENT_FIELDS);
    forall f: EnrichmentField
      ensures f in ENRICHMENT_FIELDS
    {
      EveryFieldListed(f);
    }
  }

  datatype MergeError = ErrImpossible

  /** MergePlaneLocations, field by field. */
  method MergePlaneLocations(prev: PlaneLocation, next: PlaneLocation, bearing: Bearing)
    returns (merged: PlaneLocation, err: Option<MergeError>)
    ensures err == if IsLocationPossible(prev, next, bearing) then None else Some(ErrImpossible)
    ensures merged == if err.None? then MergeFields(prev, next) else prev
  {
    if !IsLocationPossible(prev, next, bearing) {
      return prev, Some(ErrImpossible);
    }
    merged := prev.(isNew := false, removed := false, lastMsg := next.lastMsg, signalRssi := None);
    merged := merged.(sourceTags := IncTag(merged.sourceTags, next.sourceTag));
    if next.trackedSince < prev.trackedSince {
      merged := merged.(trackedSince := next.trackedSince);
    }
    merged := MergeKinematics(merged, next);
    merged := MergeDescriptions(merged, next);
    merged := MergeExtent(merged, next);
    merged := MergeStates(merged, next);
    return merged, None;
  }

  method MergeKinematics(prev: PlaneLocation, next: PlaneLocation) returns (merged: PlaneLocation)
    ensures merged == prev.(
      location := Newer(prev.location, next.location),
      heading := Newer(prev.heading, next.heading),
      velocity := Newer(prev.velocity, next.velocity),
      altitude := Newer(prev.altitude, next.altitude),
      verticalRate := Newer(prev.verticalRate, next.verticalRate))
  {
    var location, heading, velocity := prev.location, prev.heading, prev.velocity;
    var altitude, verticalRate := prev.altitude, prev.verticalRate;
    if next.location.has && next.location.at > prev.location.at {
      location := Reading(true, next.location.value, next.location.at);
    }
    if next.heading.has && next.heading.at > prev.heading.at {
      heading := Reading(true, next.heading.value, next.heading.at);
    }
    if next.velocity.has && next.velocity.at > prev.velocity.at {
      velocity := Reading(true, next.velocity.value, next.velocity.at);
    }
    if next.altitude.has && next.altitude.at > prev.altitude.at {
      altitude := Reading(true, next.altitude.value, next.altitude.at);
    }
    if next.verticalRate.has && next.verticalRate.at > prev.verticalRate.at {
      verticalRate := Reading(true, next.verticalRate.value, next.verticalRate.at);
    }
    merged := prev.(location := location, heading := heading, velocity := velocity, altitude := altitude,
                    verticalRate := verticalRate);
  }

  method MergeStates(prev: PlaneLocation, next: PlaneLocation) returns (merged: PlaneLocation)
    ensures merged == prev.(
      flightStatus := NewerValue(prev.flightStatus, next.flightStatus),
      onGround := NewerValue(prev.onGround, next.onGround),
      special := if next.special.at > prev.special.at then next.special else prev.special,
      squawk := MergeSquawk(prev.squawk, next.squawk),
      nav := if HasNav(next.nav.value) && next.nav.at > prev.nav.at then next.nav else prev.nav,
      ehs := if HasEHS(next.ehs.value) && next.ehs.at > prev.ehs.at then next.ehs else prev.ehs)
  {
    var flightStatus, onGround := prev.flightStatus, prev.onGround;
    var special, squawk, nav, ehs := prev.special, prev.squawk, prev.nav, prev.ehs;
    if next.flightStatus.has && next.flightStatus.at > prev.flightStatus.at {
      flightStatus := flightStatus.(value := next.flightStatus.value, at := next.flightStatus.at);
    }
    if next.onGround.has && next.onGround.at > prev.onGround.at {
      onGround := onGround.(value := next.onGround.value, at := next.onGround.at);
    }
    if next.squawk.at > prev.squawk.at {
      if next.squawk.value == "0" {
        if next.squawk.at > prev.squawk.at + 5 * SECOND {
          squawk := next.squawk;
        }
      } else {
        squawk := next.squawk;
      }
    }
    if next.special.at > prev.special.at {
      special := next.special;
    }
    if HasNav(next.nav.value) && next.nav.at > prev.nav.at {
      nav := next.nav;
    }
    if HasEHS(next.ehs.value) && next.ehs.at > prev.ehs.at {
      ehs := next.ehs;
    }
    merged := prev.(flightStatus := flightStatus, onGround := onGround, special := special, squawk := squawk,
                    nav := nav, ehs := ehs);
  }

  /** Descriptive fields are filled in whatever their age. */
  method MergeDescriptions(prev: PlaneLocation, next: PlaneLocation) returns (merged: PlaneLocation)
    ensures merged == prev.(
      airframe := if prev.airframe == "" then next.airframe else prev.airframe,
      airframeType := if prev.airframeType == "" then next.airframeType else prev.airframeType,
      enrichment := MergeEnrichment(prev.enrichment, next.enrichment),
      segments := if |next.segments| > 0 then next.segments else prev.segments,
      sourceTag := "merged")
  {
    merged := prev;
    if merged.airframe == "" {
      merged := merged.(airframe := next.airframe);
    }
    if merged.airframeType == "" {
      merged := merged.(airframeType := next.airframeType);
    }
    var enrichment := MergeEnrichmentFields(merged.enrichment, next.enrichment);
    merged := merged.(enrichment := enrichment);
    if |next.segments| > 0 {
      merged := merged.(segments := next.segments);
    }
    merged := merged.(sourceTag := "merged");
  }

  method MergeExtent(prev: PlaneLocation, next: PlaneLocation) returns (merged: PlaneLocation)
    ensures merged == prev.(
      tileLocation := if next.tileLocation != "" then next.tileLocation else prev.tileLocation,
      aircraftWidth := NonZero(prev.aircraftWidth, next.aircraftWidth),
      aircraftLength := NonZero(prev.aircraftLength, next.aircraftLength))
  {
    merged := prev;
    if next.tileLocation != "" {
      merged := merged.(tileLocation := next.tileLocation);
    }
    if next.aircraftWidth.Some? && next.aircraftWidth.value != 0.0 {
      merged := merged.(aircraftWidth := next.aircraftWidth);
    }
    if next.aircraftLength.Some? && next.aircraftLength.value != 0.0 {
      merged := merged.(aircraftLength := next.aircraftLength);
    }
  }
}
