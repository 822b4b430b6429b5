/** What merging means: each dated field is the newest report of it whatever the order of
    arrival, counts add up, and the gate keeps positions plausible. */
module MergeLaws {
  import opened Basics
  import opened PlaneMerge

  // --- folds over any number of updates ----------------------------------------------

  /** Merge updates in order, past the gate. */
  function FoldFields(p: PlaneLocation, us: seq<PlaneLocation>): PlaneLocation {
    if |us| == 0 then p else MergeFields(FoldFields(p, us[..|us| - 1]), us[|us| - 1])
  }

  /** A dated field of a record, and the value that an update offers for it. */
  datatype Channel<!T> = Channel(held: PlaneLocation -> Stamped<T>, offered: PlaneLocation -> Option<Stamped<T>>)

  function Absorb<T>(held: Stamped<T>, offer: Option<Stamped<T>>): Stamped<T> {
    if offer.Some? && offer.value.at > held.at then offer.value else held
  }

  ghost predicate Lawful<T>(c: Channel<T>) {
    forall p, u {:trigger MergeFields(p, u)} :: c.held(MergeFields(p, u)) == Absorb(c.held(p), c.offered(u))
  }

  ghost predicate OfferedBy<T>(c: Channel<T>, us: seq<PlaneLocation>, r: Stamped<T>) {
    exists u :: u in us && c.offered(u) == Some(r)
  }

  /** r is the newest of what the record held and the updates offered. */
  ghost predicate IsNewest<T>(c: Channel<T>, p: PlaneLocation, us: seq<PlaneLocation>, r: Stamped<T>) {
    && c.held(p).at <= r.at
    && (forall u :: u in us && c.offered(u).Some? ==> c.offered(u).value.at <= r.at)
    && (r == c.held(p) || (r.at > c.held(p).at && OfferedBy(c, us, r)))
  }

  predicate SameTime<T>(a: Option<Stamped<T>>, b: Option<Stamped<T>>) {
    a.Some? && b.Some? && a.value.at == b.value.at
  }

  /** Offers with the same time are the same offer. */
  ghost predicate DistinctTimes<T>(c: Channel<T>, us: seq<PlaneLocation>) {
    forall u, v :: u in us && v in us && SameTime(c.offered(u), c.offered(v)) ==> c.offered(u) == c.offered(v)
  }

  lemma {:induction false} FoldIsNewest<T>(c: Channel<T>, p: PlaneLocation, us: seq<PlaneLocation>)
    requires Lawful(c)
    ensures IsNewest(c, p, us, c.held(FoldFields(p, us)))
  {
    if |us| > 0 {
      var before := us[..|us| - 1];
      FoldIsNewest(c, p, before);
      MergeKeepsNewest(c, p, before, us[|us| - 1], FoldFields(p, before));
      assert us == before + [us[|us| - 1]];
    }
  }

  lemma MergeKeepsNewest<T>(c: Channel<T>, p: PlaneLocation, us: seq<PlaneLocation>, u: PlaneLocation, q: PlaneLocation)
    requires Lawful(c) && IsNewest(c, p, us, c.held(q))
    ensures IsNewest(c, p, us + [u], c.held(MergeFields(q, u)))
  {
    LawfulStep(c, q, u);
    AbsorbKeepsNewest(c, p, us, u, c.held(q));
  }

  lemma LawfulStep<T>(c: Channel<T>, p: PlaneLocation, u: PlaneLocation)
    requires Lawful(c)
    ensures c.held(MergeFields(p, u)) == Absorb(c.held(p), c.offered(u))
  {
  }

  lemma AbsorbKeepsNewest<T>(c: Channel<T>, p: PlaneLocation, us: seq<PlaneLocation>, u: PlaneLocation, r: Stamped<T>)
    requires IsNewest(c, p, us, r)
    ensures IsNewest(c, p, us + [u], Absorb(r, c.offered(u)))
  {
    var s := Absorb(r, c.offered(u));
    assert forall v :: v in us + [u] <==> v in us || v == u;
    if s != r {
      assert u in us + [u];
    } else if r != c.held(p) {
      var v :| v in us && c.offered(v) == Some(r);
      assert v in us + [u];
    }
  }

  lemma NewestIsUnique<T>(c: Channel<T>, p: PlaneLocation, us: seq<PlaneLocation>, vs: seq<PlaneLocation>,
                          r: Stamped<T>, s: Stamped<T>)
    requires IsNewest(c, p, us, r) && IsNewest(c, p, vs, s) && DistinctTimes(c, us)
    requires forall u :: u in us <==> u in vs
    ensures r == s
  {
  }

  lemma ChannelOrderFree<T>(c: Channel<T>, p: PlaneLocation, us: seq<PlaneLocation>, vs: seq<PlaneLocation>)
    requires Lawful(c) && DistinctTimes(c, us)
    requires forall u :: u in us <==> u in vs
    ensures c.held(FoldFields(p, us)) == c.held(FoldFields(p, vs))
  {
    FoldIsNewest(c, p, us);
    FoldIsNewest(c, p, vs);
    NewestIsUnique(c, p, us, vs, c.held(FoldFields(p, us)), c.held(FoldFields(p, vs)));
  }

  // --- the ten channels ----------------------------------------------------------------

  function HeldReading<T>(r: Reading<T>): Stamped<(bool, T)> {
    Stamped((r.has, r.value), r.at)
  }

  function OfferReading<T>(r: Reading<T>): Option<Stamped<(bool, T)>> {
    if r.has then Some(Stamped((true, r.value), r.at)) else None
  }

  function OfferValue<T>(r: Reading<T>): Option<Stamped<T>> {
    if r.has then Some(Stamped(r.value, r.at)) else None
  }

  const LOCATION: Channel<(bool, LatLon)> :=
    Channel((p: PlaneLocation) => HeldReading(p.location), (u: PlaneLocation) => OfferReading(u.location))
  const HEADING: Channel<(bool, real)> :=
    Channel((p: PlaneLocation) => HeldReading(p.heading), (u: PlaneLocation) => OfferReading(u.heading))
  const VELOCITY: Channel<(bool, real)> :=
    Channel((p: PlaneLocation) => HeldReading(p.velocity), (u: PlaneLocation) => OfferReading(u.velocity))
  const ALTITUDE: Channel<(bool, Altitude)> :=
    Channel((p: PlaneLocation) => HeldReading(p.altitude), (u: PlaneLocation) => OfferReading(u.altitude))
  const VERTICAL_RATE: Channel<(bool, int)> :=
    Channel((p: PlaneLocation) => HeldReading(p.verticalRate), (u: PlaneLocation) => OfferReading(u.verticalRate))
  const FLIGHT_STATUS: Channel<string> :=
    Channel((p: PlaneLocation) => Stamped(p.flightStatus.value, p.flightStatus.at),
            (u: PlaneLocation) => OfferValue(u.flightStatus))
  const ON_GROUND: Channel<bool> :=
    Channel((p: PlaneLocation) => Stamped(p.onGround.value, p.onGround.at), (u: PlaneLocation) => OfferValue(u.onGround))
  const SPECIAL: Channel<string> :=
    Channel((p: PlaneLocation) => p.special, (u: PlaneLocation) => Some(u.special))
  const NAV: Channel<NavGroup> :=
    Channel((p: PlaneLocation) => p.nav, (u: PlaneLocation) => if HasNav(u.nav.value) then Some(u.nav) else None)
  const EHS: Channel<EhsGroup> :=
    Channel((p: PlaneLocation) => p.ehs, (u: PlaneLocation) => if HasEHS(u.ehs.value) then Some(u.ehs) else None)

  lemma ReadingStep<T>(prev: Reading<T>, next: Reading<T>)
    ensures HeldReading(Newer(prev, next)) == Absorb(HeldReading(prev), OfferReading(next))
  {
  }

  lemma ValueStep<T>(prev: Reading<T>, next: Reading<T>)
    ensures var r := NewerValue(prev, next);
            Stamped(r.value, r.at) == Absorb(Stamped(prev.value, prev.at), OfferValue(next))
  {
  }

  lemma PositionIsLawful()
    ensures Lawful(LOCATION) && Lawful(ALTITUDE)
  {
    forall p, u
      ensures LOCATION.held(MergeFields(p, u)) == Absorb(LOCATION.held(p), LOCATION.offered(u))
    {
      ReadingStep(p.location, u.location);
    }
    forall p, u
      ensures ALTITUDE.held(MergeFields(p, u)) == Absorb(ALTITUDE.held(p), ALTITUDE.offered(u))
    {
      ReadingStep(p.altitude, u.altitude);
    }
  }

  lemma MotionIsLawful()
    ensures Lawful(HEADING) && Lawful(VELOCITY) && Lawful(VERTICAL_RATE)
  {
    forall p, u
      ensures HEADING.held(MergeFields(p, u)) == Absorb(HEADING.held(p), HEADING.offered(u))
    {
      ReadingStep(p.heading, u.heading);
    }
    forall p, u
      ensures VELOCITY.held(MergeFields(p, u)) == Absorb(VELOCITY.held(p), VELOCITY.offered(u))
    {
      ReadingStep(p.velocity, u.velocity);
    }
    forall p, u
      ensures VERTICAL_RATE.held(MergeFields(p, u)) == Absorb(VERTICAL_RATE.held(p), VERTICAL_RATE.offered(u))
    {
      ReadingStep(p.verticalRate, u.verticalRate);
    }
  }

  lemma StateIsLawful()
    ensures Lawful(FLIGHT_STATUS) && Lawful(ON_GROUND)
  {
    forall p, u
      ensures FLIGHT_STATUS.held(MergeFields(p, u)) == Absorb(FLIGHT_STATUS.held(p), FLIGHT_STATUS.offered(u))
    {
      ValueStep(p.flightStatus, u.flightStatus);
    }
    forall p, u
      ensures ON_GROUND.held(MergeFields(p, u)) == Absorb(ON_GROUND.held(p), ON_GROUND.offered(u))
    {
      ValueStep(p.onGround, u.onGround);
    }
  }

  lemma GroupsAreLawful()
    ensures Lawful(SPECIAL) && Lawful(NAV) && Lawful(EHS)
  {
  }

  ghost predicate AllDistinctTimes(us: seq<PlaneLocation>) {
    && DistinctTimes(LOCATION, us) && DistinctTimes(HEADING, us) && DistinctTimes(VELOCITY, us)
    && DistinctTimes(ALTITUDE, us) && DistinctTimes(VERTICAL_RATE, us) && DistinctTimes(FLIGHT_STATUS, us)
    && DistinctTimes(ON_GROUND, us) && DistinctTimes(SPECIAL, us) && DistinctTimes(NAV, us) && DistinctTimes(EHS, us)
  }

  /** Two records agree on every dated field but squawk. */
  predicate SameDatedFields(p: PlaneLocation, q: PlaneLocation) {
    && p.location == q.location && p.heading == q.heading && p.velocity == q.velocity
    && p.altitude == q.altitude && p.verticalRate == q.verticalRate
    && p.flightStatus == q.flightStatus && p.onGround == q.onGround
    && p.special == q.special && p.nav == q.nav && p.ehs == q.ehs
  }

  /** How many of the updates came from the feeder with this tag. */
  function TimesMerged(us: seq<PlaneLocation>, tag: string): (n: nat)
    ensures n <= |us|
  {
    if |us| == 0 then 0
    else TimesMerged(us[..|us| - 1], tag) + if us[|us| - 1].sourceTag == tag then 1 else 0
  }

  /** A uint32 that has counted n things since it stood at c. */
  ghost predicate Counted(c: int, base: int, n: nat) {
    c == (base + n) % 0x1_0000_0000
  }

  lemma CountedNext(c: int, base: int, n: nat)
    requires Counted(c, base, n)
    ensures Counted(Next32(c), base, n + 1)
  {
  }

  /** Source tags count the merged updates of each feeder, modulo 2^32. */
  lemma {:induction false} TagsCountUpdates(p: PlaneLocation, us: seq<PlaneLocation>, tag: string)
    requires 0 <= CountOf(p.sourceTags, tag) < UINT32
    ensures Counted(CountOf(FoldFields(p, us).sourceTags, tag), CountOf(p.sourceTags, tag), TimesMerged(us, tag))
  {
    if |us| > 0 {
      var before, u := us[..|us| - 1], us[|us| - 1];
      TagsCountUpdates(p, before, tag);
      MergeCountsTag(FoldFields(p, before), u, tag, CountOf(p.sourceTags, tag), TimesMerged(before, tag));
    }
  }

  lemma MergeCountsTag(p: PlaneLocation, u: PlaneLocation, tag: string, base: int, n: nat)
    requires Counted(CountOf(p.sourceTags, tag), base, n)
    ensures Counted(CountOf(MergeFields(p, u).sourceTags, tag), base, n + if u.sourceTag == tag then 1 else 0)
  {
    CountedNext(CountOf(p.sourceTags, tag), base, n);
  }

  /** Over all feeders the counts add up to the number of updates. */
  lemma {:induction false} EveryUpdateCounted(us: seq<PlaneLocation>, tags: multiset<string>)
    requires forall t :: tags[t] == TimesMerged(us, t)
    ensures |tags| == |us|
  {
    if |us| == 0 {
      assert tags == multiset{};
    } else {
      var t := us[|us| - 1].sourceTag;
      assert tags[t] == TimesMerged(us, t);
      var rest := tags[t := tags[t] - 1];
      forall x
        ensures rest[x] == TimesMerged(us[..|us| - 1], x)
      {
        assert tags[x] == TimesMerged(us, x);
      }
      EveryUpdateCounted(us[..|us| - 1], rest);
      assert tags == rest + multiset{t};
    }
  }

  function Earliest(p: PlaneLocation, us: seq<PlaneLocation>): (t: Time)
    ensures t <= p.trackedSince && forall u :: u in us ==> t <= u.trackedSince
    ensures t == p.trackedSince || exists u :: u in us && t == u.trackedSince
  {
    if |us| == 0 then p.trackedSince
    else
      assert us == us[..|us| - 1] + [us[|us| - 1]];
      var t, u := Earliest(p, us[..|us| - 1]), us[|us| - 1];
      if u.trackedSince < t then u.trackedSince else t
  }

  lemma {:induction false} TrackedSinceIsEarliest(p: PlaneLocation, us: seq<PlaneLocation>)
    ensures FoldFields(p, us).trackedSince == Earliest(p, us)
  {
    if |us| > 0 {
      TrackedSinceIsEarliest(p, us[..|us| - 1]);
    }
  }

  lemma {:induction false} TimesMergedRemoval(us: seq<PlaneLocation>, i: nat, tag: string)
    requires i < |us|
    ensures TimesMerged(us, tag) == TimesMerged(us[..i] + us[i + 1..], tag) + if us[i].sourceTag == tag then 1 else 0
  {
    var n := |us| - 1;
    var rest := us[..i] + us[i + 1..];
    if i == n {
      assert rest == us[..n];
    } else {
      TimesMergedRemoval(us[..n], i, tag);
      assert rest[..n - 1] == us[..n][..i] + us[..n][i + 1..];
      assert rest[n - 1] == us[n];
    }
  }

  lemma RemoveFound<T>(us: seq<T>, vs: seq<T>) returns (i: nat)
    requires |us| > 0 && multiset(us) == multiset(vs)
    ensures i < |vs| && vs[i] == us[|us| - 1]
    ensures multiset(vs[..i] + vs[i + 1..]) == multiset(us[..|us| - 1])
  {
    var n := |us| - 1;
    assert us == us[..n] + [us[n]];
    assert us[n] in multiset(vs);
    i :| 0 <= i < |vs| && vs[i] == us[n];
    assert vs == vs[..i] + [vs[i]] + vs[i + 1..];
    assert multiset(vs[..i] + vs[i + 1..]) == multiset(vs) - multiset{us[n]};
  }

  lemma {:induction false} TimesMergedPermutation(us: seq<PlaneLocation>, vs: seq<PlaneLocation>, tag: string)
    requires multiset(us) == multiset(vs)
    ensures TimesMerged(us, tag) == TimesMerged(vs, tag)
    decreases |us|
  {
    if |us| == 0 {
      assert |multiset(vs)| == 0;
    } else {
      var i := RemoveFound(us, vs);
      TimesMergedPermutation(us[..|us| - 1], vs[..i] + vs[i + 1..], tag);
      TimesMergedRemoval(vs, i, tag);
    }
  }

  /** Merging is a join: past the gate, the order in which updates arrive makes no
      difference to any dated field but squawk, to the time since when the aircraft is
      tracked, or to any source tag count. */
  lemma MergeOrderFree(p: PlaneLocation, us: seq<PlaneLocation>, vs: seq<PlaneLocation>, tag: string)
    requires multiset(us) == multiset(vs) && AllDistinctTimes(us)
    requires 0 <= CountOf(p.sourceTags, tag) < UINT32
    ensures SameDatedFields(FoldFields(p, us), FoldFields(p, vs))
    ensures FoldFields(p, us).trackedSince == FoldFields(p, vs).trackedSince
    ensures CountOf(FoldFields(p, us).sourceTags, tag) == CountOf(FoldFields(p, vs).sourceTags, tag)
  {
    SameElements(us, vs);
    DatedFieldsOrderFree(p, us, vs);
    TrackedSinceIsEarliest(p, us);
    TrackedSinceIsEarliest(p, vs);
    TagCountsOrderFree(p, us, vs, tag);
  }

  lemma SameElements<T>(us: seq<T>, vs: seq<T>)
    requires multiset(us) == multiset(vs)
    ensures forall u :: u in us <==> u in vs
  {
    forall u
      ensures u in us <==> u in vs
    {
      assert u in us <==> u in multiset(us);
      assert u in vs <==> u in multiset(vs);
    }
  }

  lemma TagCountsOrderFree(p: PlaneLocation, us: seq<PlaneLocation>, vs: seq<PlaneLocation>, tag: string)
    requires multiset(us) == multiset(vs) && 0 <= CountOf(p.sourceTags, tag) < UINT32
    ensures CountOf(FoldFields(p, us).sourceTags, tag) == CountOf(FoldFields(p, vs).sourceTags, tag)
  {
    var base := CountOf(p.sourceTags, tag);
    TagsCountUpdates(p, us, tag);
    TagsCountUpdates(p, vs, tag);
    TimesMergedPermutation(us, vs, tag);
    CountedUnique(CountOf(FoldFields(p, us).sourceTags, tag), CountOf(FoldFields(p, vs).sourceTags, tag), base,
                  TimesMerged(us, tag), TimesMerged(vs, tag));
  }

  lemma CountedUnique(c: int, d: int, base: int, n: nat, m: nat)
    requires Counted(c, base, n) && Counted(d, base, m) && n == m
    ensures c == d
  {
  }

  lemma DatedFieldsOrderFree(p: PlaneLocation, us: seq<PlaneLocation>, vs: seq<PlaneLocation>)
    requires AllDistinctTimes(us)
    requires forall u :: u in us <==> u in vs
    ensures SameDatedFields(FoldFields(p, us), FoldFields(p, vs))
  {
    PositionIsLawful();
    MotionIsLawful();
    StateIsLawful();
    GroupsAreLawful();
    ChannelOrderFree(LOCATION, p, us, vs);
    ChannelOrderFree(HEADING, p, us, vs);
    ChannelOrderFree(VELOCITY, p, us, vs);
    ChannelOrderFree(ALTITUDE, p, us, vs);
    ChannelOrderFree(VERTICAL_RATE, p, us, vs);
    ChannelOrderFree(FLIGHT_STATUS, p, us, vs);
    ChannelOrderFree(ON_GROUND, p, us, vs);
    ChannelOrderFree(SPECIAL, p, us, vs);
    ChannelOrderFree(NAV, p, us, vs);
    ChannelOrderFree(EHS, p, us, vs);
    FlagsKept(p, us);
    FlagsKept(p, vs);
  }

  /** Two flags are never set by a merge. */
  lemma {:induction false} FlagsKept(p: PlaneLocation, us: seq<PlaneLocation>)
    ensures FoldFields(p, us).flightStatus.has == p.flightStatus.has
    ensures FoldFields(p, us).onGround.has == p.onGround.has
  {
    if |us| > 0 {
      FlagsKept(p, us[..|us| - 1]);
    }
  }

  const NO_NAV := NavGroup(None, None, None, None, [])

  const NO_EHS := EhsGroup(None, None, None, None, None, None, None, None)

  /** A group counts as reported unless it is entirely empty. */
  lemma GroupsReported(n: NavGroup, e: EhsGroup)
    ensures HasNav(n) <==> n != NO_NAV
    ensures HasEHS(e) <==> e != NO_EHS
  {
  }

  /** Group fields are never mixed: the navigation fields held after any number of merges
      are those of the record or of one single update, and likewise the surveillance ones. */
  lemma GroupsStayWhole(p: PlaneLocation, us: seq<PlaneLocation>)
    ensures var q := FoldFields(p, us);
            && (q.nav == p.nav || exists u :: u in us && u.nav.value != NO_NAV && q.nav == u.nav && u.nav.at > p.nav.at)
            && (q.ehs == p.ehs || exists u :: u in us && u.ehs.value != NO_EHS && q.ehs == u.ehs && u.ehs.at > p.ehs.at)
            && (forall u :: u in us && u.nav.value != NO_NAV ==> u.nav.at <= q.nav.at)
            && (forall u :: u in us && u.ehs.value != NO_EHS ==> u.ehs.at <= q.ehs.at)
  {
    forall u | u in us
      ensures (HasNav(u.nav.value) <==> u.nav.value != NO_NAV) && (HasEHS(u.ehs.value) <==> u.ehs.value != NO_EHS)
    {
      GroupsReported(u.nav.value, u.ehs.value);
    }
    GroupsAreLawful();
    FoldIsNewest(NAV, p, us);
    FoldIsNewest(EHS, p, us);
  }

  // --- squawk ---------------------------------------------------------------------------

  /** Over any run the squawk is the record's or that of one of the updates, which was newer
      than the squawk it replaced, and more than five seconds newer if it is "0". */
  lemma {:induction false} SquawkProvenance(p: PlaneLocation, us: seq<PlaneLocation>)
    ensures var q := FoldFields(p, us).squawk;
            && p.squawk.at <= q.at
            && (q != p.squawk ==> exists i :: 0 <= i < |us| && SquawkTaken(p, us, i, q))
  {
    if |us| > 0 {
      var n := |us| - 1;
      SquawkProvenance(p, us[..n]);
      var q := FoldFields(p, us[..n]).squawk;
      if FoldFields(p, us).squawk != q {
        assert SquawkTaken(p, us, n, FoldFields(p, us).squawk);
      } else if q != p.squawk {
        var i :| 0 <= i < n && SquawkTaken(p, us[..n], i, q);
        assert us[..n][..i] == us[..i];
        assert SquawkTaken(p, us, i, q);
      }
    }
  }

  /** Update i brings squawk q in place of the one held then. */
  predicate SquawkTaken(p: PlaneLocation, us: seq<PlaneLocation>, i: int, q: Stamped<string>)
    requires 0 <= i < |us|
  {
    var replaced := FoldFields(p, us[..i]).squawk;
    us[i].squawk == q && q.at > replaced.at && (q.value == "0" ==> q.at > replaced.at + 5_000_000_000)
  }

  // --- the gate --------------------------------------------------------------------------

  /** The angle between two directions, 0 to 180 degrees. */
  function CircularDifference(a: real, b: real): (d: real)
    requires 0.0 <= a < 360.0 && 0.0 <= b < 360.0
    ensures 0.0 <= d <= 180.0
  {
    var d := Abs(a - b);
    if d <= 180.0 then d else 360.0 - d
  }

  lemma GoModSpan(x: real)
    requires -360.0 < x < 720.0
    ensures GoMod(x, 360.0) == if x < 360.0 then x else x - 360.0
  {
    if x < 0.0 {
      assert (-x / 360.0).Floor == 0;
    } else if x < 360.0 {
      assert (x / 360.0).Floor == 0;
    } else {
      assert (x / 360.0).Floor == 1;
    }
  }

  /** The heading test, exactly: it accepts when heading and bearing are less than 90
      degrees apart, except where heading - bearing is below -180, where math.Mod keeps
      its negative sign and every position is turned down. */
  lemma GateExact(heading: real, bearing: real)
    requires 0.0 <= heading < 360.0 && 0.0 <= bearing < 360.0
    ensures DeltaBearing(heading, bearing) < 90.0
       <==> CircularDifference(heading, bearing) < 90.0 && heading - bearing >= -180.0
  {
    GoModSpan(heading - bearing + 180.0);
  }

  /** The whole gate, exactly: an update is turned down when both positions and headings are
      known, the position changes, and it is older by either clock, or lies 90 degrees or more
      off the heading, or the heading is more than 180 below the bearing. */
  lemma GateDecides(prev: PlaneLocation, next: PlaneLocation, bearing: Bearing)
    requires BearingInRange(bearing) && HeadingInRange(prev)
    ensures IsLocationPossible(prev, next, bearing) <==>
              var known := prev.location.has && next.location.has && prev.heading.has && next.heading.has;
              var b := bearing(prev.location.value, next.location.value);
              known && prev.location.value != next.location.value ==>
                && prev.lastMsg <= next.lastMsg && prev.location.at <= next.location.at
                && CircularDifference(prev.heading.value, b) < 90.0 && prev.heading.value - b >= -180.0
  {
    if prev.heading.has {
      GateExact(prev.heading.value, bearing(prev.location.value, next.location.value));
    }
  }

  /** Flying a heading of 5 degrees along a bearing of 300 is turned down, however new and
      whatever the two records are otherwise. */
  lemma GateTurnsDownPlausible(prev: PlaneLocation, next: PlaneLocation, bearing: Bearing)
    requires BearingInRange(bearing) && prev.location.has && next.location.has && next.heading.has
    requires prev.location.value != next.location.value && bearing(prev.location.value, next.location.value) == 300.0
    ensures CircularDifference(5.0, 300.0) == 65.0
    ensures !IsLocationPossible(prev.(heading := Reading(true, 5.0, prev.heading.at)), next, bearing)
  {
    GateDecides(prev.(heading := Reading(true, 5.0, prev.heading.at)), next, bearing);
  }

  ghost predicate BearingInRange(bearing: Bearing) {
    forall a, b :: 0.0 <= bearing(a, b) < 360.0
  }

  predicate HeadingInRange(p: PlaneLocation) {
    p.heading.has ==> 0.0 <= p.heading.value < 360.0
  }

  /** Merge with the gate: a rejected update leaves the record alone. */
  function MergeGated(p: PlaneLocation, u: PlaneLocation, bearing: Bearing): PlaneLocation {
    if IsLocationPossible(p, u, bearing) then MergeFields(p, u) else p
  }

  function FoldGated(p: PlaneLocation, us: seq<PlaneLocation>, bearing: Bearing): PlaneLocation {
    if |us| == 0 then p else MergeGated(FoldGated(p, us[..|us| - 1], bearing), us[|us| - 1], bearing)
  }

  lemma {:induction false} HeadingStaysInRange(p: PlaneLocation, us: seq<PlaneLocation>, bearing: Bearing)
    requires HeadingInRange(p) && forall u :: u in us ==> HeadingInRange(u)
    ensures HeadingInRange(FoldGated(p, us, bearing))
  {
    if |us| > 0 {
      assert forall u :: u in us[..|us| - 1] ==> u in us;
      assert us[|us| - 1] in us;
      HeadingStaysInRange(p, us[..|us| - 1], bearing);
    }
  }

  /** Gate soundness over any run: whenever a merge moves a position whose heading is
      known on both sides, the position gets strictly newer and lies less than 90 degrees
      off the cached heading. */
  lemma GateSound(p: PlaneLocation, us: seq<PlaneLocation>, next: PlaneLocation, bearing: Bearing)
    requires BearingInRange(bearing) && HeadingInRange(p)
    requires forall u :: u in us ==> HeadingInRange(u)
    requires next.location.has && next.heading.has
    ensures var q := FoldGated(p, us, bearing);
            var r := MergeGated(q, next, bearing);
            q.location.has && q.heading.has && r.location.value != q.location.value ==>
              && r.location.value == next.location.value
              && r.location.at == next.location.at > q.location.at
              && 0.0 <= q.heading.value < 360.0
              && CircularDifference(q.heading.value, bearing(q.location.value, r.location.value)) < 90.0
  {
    HeadingStaysInRange(p, us, bearing);
    var q := FoldGated(p, us, bearing);
    if q.location.has && q.heading.has {
      GateExact(q.heading.value, bearing(q.location.value, next.location.value));
    }
  }

  /** The location never gets older, moved or not. */
  lemma {:induction false} LocationNeverOlder(p: PlaneLocation, us: seq<PlaneLocation>, bearing: Bearing)
    ensures p.location.at <= FoldGated(p, us, bearing).location.at
  {
    if |us| > 0 {
      LocationNeverOlder(p, us[..|us| - 1], bearing);
    }
  }
}
