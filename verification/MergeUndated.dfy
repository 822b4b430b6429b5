/** The fields of a record that carry no update time of their own: what they are after any number
    of updates, and what that means for the clocks of the gate. */
module MergeUndated {
  import opened Basics
  import opened PlaneMerge
  import opened MergeLaws
  import opened Router
  import opened LockedMerge
  import opened RouterConcurrency

  // --- flags and the last message -----------------------------------------------------------------

  /** q is a record into which last was merged last. */
  predicate LastMerged(q: PlaneLocation, last: PlaneLocation) {
    q.lastMsg == last.lastMsg && !q.isNew && !q.removed && q.signalRssi == None && q.sourceTag == "merged"
  }

  lemma LastIsMerged(p: PlaneLocation, us: seq<PlaneLocation>)
    requires |us| > 0
    ensures LastMerged(FoldFields(p, us), us[|us| - 1])
  {
  }

  /** After any run past the gate the record shows the last accepted update as its last message,
      whatever the times; without an accepted update it is as it was. */
  lemma LastAccepted(p: PlaneLocation, us: seq<PlaneLocation>, bearing: Bearing)
    ensures var accepted, q := Accepted(p, us, bearing), FoldGated(p, us, bearing);
            if |accepted| == 0 then q == p else LastMerged(q, accepted[|accepted| - 1])
  {
    AcceptedFold(p, us, bearing);
    if |Accepted(p, us, bearing)| > 0 {
      LastIsMerged(p, Accepted(p, us, bearing));
    }
  }

  /** With positions and headings known, an accepted update that moves the position is not older,
      by the time of its message, than the update accepted last. */
  lemma MovesForward(p: PlaneLocation, us: seq<PlaneLocation>, u: PlaneLocation, bearing: Bearing)
    requires var q := FoldGated(p, us, bearing);
             && q.location.has && u.location.has && q.heading.has && u.heading.has
             && MergeGated(q, u, bearing).location.value != q.location.value
    ensures var accepted := Accepted(p, us, bearing);
            u.lastMsg >= if |accepted| == 0 then p.lastMsg else accepted[|accepted| - 1].lastMsg
  {
    LastAccepted(p, us, bearing);
  }

  /** But it can go back, and exactly when: with an older update that moves no position, or one of
      which position or heading are not known on both sides. */
  lemma ClockGoesBack(p: PlaneLocation, u: PlaneLocation, bearing: Bearing)
    ensures MergeGated(p, u, bearing).lastMsg < p.lastMsg <==>
              && u.lastMsg < p.lastMsg
              && !(p.location.has && u.location.has && p.heading.has && u.heading.has && p.location.value != u.location.value)
  {
  }

  /** The cached record of the router, in every interleaving, when its lock is free. */
  lemma CachedLastMessage(cfg: Config, acts: seq<Action>, icao: string, ks: KeyState)
    requires ks == KeyOf(RunAll(RouterOps(cfg), acts), icao) && ks.entry.Some? && ks.owner.None?
    ensures ks.start < |ks.history|
    ensures var first := Tagged(ks.history[ks.start]);
            var accepted := Accepted(first, ks.history[ks.start + 1..], cfg.bearing);
            if |accepted| == 0 then ks.entry.value == first else LastMerged(ks.entry.value, accepted[|accepted| - 1])
  {
    EntryIsMerged(cfg, acts, icao, ks);
    var first := Tagged(ks.history[ks.start]);
    var accepted := Accepted(first, ks.history[ks.start + 1..], cfg.bearing);
    if |accepted| > 0 {
      LastIsMerged(first, accepted);
    }
  }

  // --- descriptions ---------------------------------------------------------------------------------

  /** A field that keeps what it first was, once that is not empty. */
  ghost predicate FirstStays(f: PlaneLocation -> string) {
    forall p, u {:trigger MergeFields(p, u)} :: f(MergeFields(p, u)) == if f(p) != "" then f(p) else f(u)
  }

  /** The first of the record and the updates that has one. */
  function FirstOf(f: PlaneLocation -> string, p: PlaneLocation, us: seq<PlaneLocation>): (name: string)
    ensures f(p) != "" ==> name == f(p)
    ensures f(p) == "" && name != "" ==> exists i :: 0 <= i < |us| && f(us[i]) == name && forall j :: 0 <= j < i ==> f(us[j]) == ""
    ensures name == "" ==> f(p) == "" && forall i :: 0 <= i < |us| ==> f(us[i]) == ""
  {
    if |us| == 0 then f(p)
    else
      var before := FirstOf(f, p, us[..|us| - 1]);
      if before != "" then before else f(us[|us| - 1])
  }

  ghost predicate HoldsFirst(f: PlaneLocation -> string, p: PlaneLocation, us: seq<PlaneLocation>) {
    f(FoldFields(p, us)) == FirstOf(f, p, us)
  }

  lemma {:induction false} FirstIsHeld(f: PlaneLocation -> string, p: PlaneLocation, us: seq<PlaneLocation>)
    requires FirstStays(f)
    ensures HoldsFirst(f, p, us)
  {
    if |us| > 0 {
      FirstIsHeld(f, p, us[..|us| - 1]);
    }
  }

  /** A field that takes whatever an update gives. */
  ghost predicate LastReplaces<T(!new)>(f: PlaneLocation -> T, given: PlaneLocation -> Option<T>) {
    forall p, u {:trigger MergeFields(p, u)} ::
      f(MergeFields(p, u)) == if given(u).Some? then given(u).value else f(p)
  }

  /** The last that was given, if anything was. */
  function LastGiven<T>(given: PlaneLocation -> Option<T>, us: seq<PlaneLocation>): (r: Option<T>)
    ensures r.Some? ==> exists i :: 0 <= i < |us| && given(us[i]) == r && forall j :: i < j < |us| ==> given(us[j]) == None
    ensures r.None? ==> forall i :: 0 <= i < |us| ==> given(us[i]) == None
  {
    if |us| == 0 then None
    else if given(us[|us| - 1]).Some? then given(us[|us| - 1])
    else LastGiven(given, us[..|us| - 1])
  }

  ghost predicate HoldsLast<T>(f: PlaneLocation -> T, given: PlaneLocation -> Option<T>, p: PlaneLocation, us: seq<PlaneLocation>) {
    f(FoldFields(p, us)) == if LastGiven(given, us).Some? then LastGiven(given, us).value else f(p)
  }

  lemma {:induction false} LastIsHeld<T(!new)>(f: PlaneLocation -> T, given: PlaneLocation -> Option<T>, p: PlaneLocation, us: seq<PlaneLocation>)
    requires LastReplaces(f, given)
    ensures HoldsLast(f, given, p, us)
  {
    if |us| > 0 {
      LastIsHeld(f, given, p, us[..|us| - 1]);
    }
  }

  const AIRFRAME := (r: PlaneLocation) => r.airframe
  const AIRFRAME_TYPE := (r: PlaneLocation) => r.airframeType
  const TILE := (r: PlaneLocation) => r.tileLocation
  const SEGMENTS := (r: PlaneLocation) => r.segments
  const WIDTH := (r: PlaneLocation) => r.aircraftWidth
  const LENGTH := (r: PlaneLocation) => r.aircraftLength

  const TILE_GIVEN := (u: PlaneLocation) => if u.tileLocation != "" then Some(u.tileLocation) else None
  const SEGMENTS_GIVEN := (u: PlaneLocation) => if u.segments != [] then Some(u.segments) else None
  const WIDTH_GIVEN := (u: PlaneLocation) => Measured(u.aircraftWidth)
  const LENGTH_GIVEN := (u: PlaneLocation) => Measured(u.aircraftLength)

  function Measured(extent: Option<real>): Option<Option<real>> {
    if extent.Some? && extent.value != 0.0 then Some(extent) else None
  }

  /** An enrichment of a record, and what an update has to say about it. */
  function Listed(field: EnrichmentField): PlaneLocation -> Option<string> {
    (r: PlaneLocation) => if field in r.enrichment then Some(r.enrichment[field]) else None
  }

  function ListedGiven(field: EnrichmentField): PlaneLocation -> Option<Option<string>> {
    (u: PlaneLocation) =>
      if field in u.enrichment && u.enrichment[field] != "" then Some(Some(u.enrichment[field])) else None
  }

  lemma NamesStay()
    ensures FirstStays(AIRFRAME) && FirstStays(AIRFRAME_TYPE)
  {
  }

  lemma ExtentsReplaced()
    ensures LastReplaces(WIDTH, WIDTH_GIVEN) && LastReplaces(LENGTH, LENGTH_GIVEN)
  {
  }

  lemma RouteReplaced()
    ensures LastReplaces(TILE, TILE_GIVEN) && LastReplaces(SEGMENTS, SEGMENTS_GIVEN)
  {
  }

  lemma EnrichmentReplaced(field: EnrichmentField)
    ensures LastReplaces(Listed(field), ListedGiven(field))
  {
  }

  /** Airframe and its type are the first that were known, ... */
  lemma NamesExact(p: PlaneLocation, us: seq<PlaneLocation>)
    ensures FoldFields(p, us).airframe == FirstOf(AIRFRAME, p, us)
    ensures FoldFields(p, us).airframeType == FirstOf(AIRFRAME_TYPE, p, us)
  {
    NamesStay();
    FirstIsHeld(AIRFRAME, p, us);
    FirstIsHeld(AIRFRAME_TYPE, p, us);
  }

  /** ... the tile, the segments, each enrichment and the two extents are the last that were given,
      where empty and zero give nothing. */
  lemma DescriptionsExact(p: PlaneLocation, us: seq<PlaneLocation>, field: EnrichmentField)
    ensures HoldsLast(TILE, TILE_GIVEN, p, us)
    ensures HoldsLast(SEGMENTS, SEGMENTS_GIVEN, p, us)
    ensures HoldsLast(Listed(field), ListedGiven(field), p, us)
    ensures HoldsLast(WIDTH, WIDTH_GIVEN, p, us) && HoldsLast(LENGTH, LENGTH_GIVEN, p, us)
  {
    RouteReplaced();
    ExtentsReplaced();
    EnrichmentReplaced(field);
    LastIsHeld(TILE, TILE_GIVEN, p, us);
    LastIsHeld(SEGMENTS, SEGMENTS_GIVEN, p, us);
    LastIsHeld(Listed(field), ListedGiven(field), p, us);
    LastIsHeld(WIDTH, WIDTH_GIVEN, p, us);
    LastIsHeld(LENGTH, LENGTH_GIVEN, p, us);
  }
}
