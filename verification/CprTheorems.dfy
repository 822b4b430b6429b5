/** What the decoder of lib/tracker/cpr.go promises: positions are recovered, results
    stay in range, and every pair of reports is used consistently. */
module CprTheorems {
  import opened Basics
  import opened NlTable
  import opened CprEncoding
  import opened CprDecoder
  import opened CprRoundTrip

  /** An aircraft position at the time one of its reports was received. */
  datatype Fixed = Fixed(lat: real, lon: real, time: int)

  function Sent(k: Kind, odd: bool, p: Fixed): Report {
    Transmit(k, odd, p.lat, p.lon, p.time)
  }

  function SentLat(k: Kind, odd: bool, p: Fixed): real {
    RecoveredLat(k, odd, p.lat)
  }

  function SentLon(k: Kind, odd: bool, p: Fixed): real {
    RecoveredLon(k, odd, p.lat, p.lon)
  }

  predicate OnEarth(p: Fixed) {
    -90.0 <= p.lat <= 90.0
  }

  /** The number of longitude zones the even report was encoded with. */
  function SentZones(k: Kind, even: Fixed): (nl: int)
    ensures 1 <= nl <= 59
  {
    NL(SentLat(k, false, even))
  }

  predicate SameZones(k: Kind, even: Fixed, odd: Fixed) {
    SentZones(k, even) == NL(SentLat(k, true, odd))
  }

  predicate Recent(even: Fixed, odd: Fixed) {
    -10_001_000_000 < odd.time - even.time < 10_001_000_000
  }

  /** The position whose report is decoded: the strictly earlier odd one, else the even one. */
  function Earlier(even: Fixed, odd: Fixed): Fixed {
    if odd.time < even.time then odd else even
  }

  /** a and b are at most eps apart on the circle. */
  ghost predicate OnCircle(a: real, b: real, eps: real) {
    exists turn: int :: ApartBy(a, b, turn, eps)
  }

  predicate ApartBy(a: real, b: real, turn: int, eps: real) {
    Abs(a - b - 360.0 * turn as real) <= eps
  }

  lemma RecentIsCloseInTime(even: Report, odd: Report)
    ensures CloseInTime(even, odd) <==> -10_001_000_000 < odd.time - even.time < 10_001_000_000
  {
  }

  // --- common to both decodes ---------------------------------------------------

  /** The longitude decoded before it is moved to its hemisphere or quadrant. */
  function UsedRawLon(k: Kind, even: Fixed, odd: Fixed): real {
    var useOdd := odd.time < even.time;
    RawLon(k, SentLat(k, useOdd, Earlier(even, odd)), SentZones(k, even), useOdd,
           Sent(k, false, even), Sent(k, true, odd))
  }

  predicate Aligned(k: Kind, even: Fixed, odd: Fixed) {
    LonAligned(k, SentZones(k, even), odd.time < even.time, even.lon, odd.lon)
  }

  /** With both latitudes recovered, the rest of the decode is determined: which error
      there is, or whose position is returned, and when its longitude is right. */
  lemma FixExact(k: Kind, even: Fixed, odd: Fixed, refLon: real)
    requires OnEarth(even) && OnEarth(odd)
    ensures var fix := Fix(k, SentLat(k, false, even), SentLat(k, true, odd), refLon,
                           Sent(k, false, even), Sent(k, true, odd));
            var useOdd := odd.time < even.time;
            var used := Earlier(even, odd);
            var x := UsedRawLon(k, even, odd);
            && (!SameZones(k, even, odd) ==> fix == Err(ZoneMismatch))
            && (SameZones(k, even, odd) && !Recent(even, odd) ==> fix == Err(TooFarApart))
            && (SameZones(k, even, odd) && Recent(even, odd) ==>
                  && fix == Ok(Position(SentLat(k, useOdd, used),
                                        if k.Airborne? then AirLon(x) else SurfaceLon(x, refLon),
                                        used.time, k.Surface?))
                  && 0.0 <= x < k.Range()
                  && (x == RealMod(SentLon(k, useOdd, used), k.Range()) <==> Aligned(k, even, odd)))
  {
    var e, o := Sent(k, false, even), Sent(k, true, odd);
    var lat0, lat1 := SentLat(k, false, even), SentLat(k, true, odd);
    RecentIsCloseInTime(e, o);
    RecoveredLatInRange(k, false, even.lat);
    RecoveredLatInRange(k, true, odd.lat);
    if SameZones(k, even, odd) {
      UsedRawLonExact(k, even, odd);
    }
  }

  lemma UsedRawLonExact(k: Kind, even: Fixed, odd: Fixed)
    requires SameZones(k, even, odd)
    ensures var x := UsedRawLon(k, even, odd);
            && 0.0 <= x < k.Range()
            && (x == RealMod(SentLon(k, odd.time < even.time, Earlier(even, odd)), k.Range()) <==> Aligned(k, even, odd))
  {
    var useOdd := odd.time < even.time;
    var nl, lat := SentZones(k, even), SentLat(k, useOdd, Earlier(even, odd));
    TransmittedLon(k, false, even.lat, even.lon, even.time);
    TransmittedLon(k, true, odd.lat, odd.lon, odd.time);
    var e, o := Sent(k, false, even), Sent(k, true, odd);
    RawLonRecovers(k, nl, useOdd, lat, even.lon, odd.lon, e, o);
    RawLonRange(k, lat, nl, useOdd, e, o);
  }

  lemma RawLonRange(k: Kind, lat: real, nl: int, odd: bool, e: Report, o: Report)
    requires InRaw(e.lat, e.lon) && InRaw(o.lat, o.lon)
    ensures 0.0 <= RawLon(k, lat, nl, odd, e, o) < k.Range()
  {
    ZoneValueRange(k, LonZones(lat, odd), ZoneIndex(nl - 1, e.lon, nl, o.lon), if odd then o.lon else e.lon);
  }

  // --- airborne ---------------------------------------------------------------

  /** The longitude as an airborne decode reports it: its representative in (-180, 180]. */
  function HemisphereLon(lon: real): real {
    AirLon(RealMod(lon, 360.0))
  }

  /** Airborne round trip. Once the latitudes are within half a zone step (slip 0), a
      pair whose zone counts differ is refused, a pair too far apart in time is refused,
      and any other pair gives the latitude of the earlier report as it was sent, its
      time, and its longitude as it was sent exactly when the longitudes are aligned. */
  lemma AirborneRoundTrip(even: Fixed, odd: Fixed)
    requires OnEarth(even) && OnEarth(odd) && LatSlip(Airborne, even.lat, odd.lat) == 0
    ensures var fix := AirFix(Sent(Airborne, false, even), Sent(Airborne, true, odd));
            var useOdd := odd.time < even.time;
            var used := Earlier(even, odd);
            && (!SameZones(Airborne, even, odd) ==> fix == Err(ZoneMismatch))
            && (SameZones(Airborne, even, odd) && !Recent(even, odd) ==> fix == Err(TooFarApart))
            && (SameZones(Airborne, even, odd) && Recent(even, odd) ==>
                  && fix.Ok?
                  && fix.value.latitude == SentLat(Airborne, useOdd, used)
                  && fix.value.cprDecodedTS == used.time
                  && !fix.value.onGround
                  && (fix.value.longitude == HemisphereLon(SentLon(Airborne, useOdd, used))
                      <==> Aligned(Airborne, even, odd)))
  {
    AirLatitudeExact(even.lat, even.lon, even.time, odd.lat, odd.lon, odd.time);
    FixExact(Airborne, even, odd, 0.0);
    RealModRange(SentLon(Airborne, odd.time < even.time, Earlier(even, odd)), 360.0);
  }

  lemma RealModRange(x: real, r: real)
    requires r > 0.0
    ensures 0.0 <= RealMod(x, r) < r
    ensures x == r * (x / r).Floor as real + RealMod(x, r)
  {
    var q := x / r;
    var f := q - q.Floor as real;
    assert 0.0 <= f < 1.0;
    assert RealMod(x, r) == r * f;
    FractionScale(r, f);
  }

  lemma FractionScale(r: real, f: real)
    requires r > 0.0 && 0.0 <= f < 1.0
    ensures 0.0 <= r * f < r
  {
  }

  lemma HemisphereLonOnCircle(sent: real, lon: real, eps: real)
    requires Abs(sent - lon) <= eps
    ensures OnCircle(HemisphereLon(sent), lon, eps)
    ensures -180.0 < HemisphereLon(sent) <= 180.0
  {
    RealModRange(sent, 360.0);
    var turn := -(sent / 360.0).Floor;
    if RealMod(sent, 360.0) > 180.0 {
      assert ApartBy(HemisphereLon(sent), lon, turn - 1, eps);
    } else {
      assert ApartBy(HemisphereLon(sent), lon, turn, eps);
    }
  }

  /** Half a quantum of latitude or longitude for the report that is used. */
  function HalfLatQuantum(k: Kind, odd: bool): real {
    Width(LatZones(odd)) / (2.0 * k.Scale() as real)
  }

  function HalfLonQuantum(k: Kind, odd: bool, p: Fixed): real {
    Width(EncodedLonZones(k, odd, p.lat)) / (2.0 * k.Scale() as real)
  }

  lemma SentWithinHalfQuantum(k: Kind, useOdd: bool, p: Fixed)
    ensures Abs(SentLat(k, useOdd, p) - p.lat) <= HalfLatQuantum(k, useOdd)
    ensures Abs(SentLon(k, useOdd, p) - p.lon) <= HalfLonQuantum(k, useOdd, p)
  {
    RecoveredWithinHalfQuantum(k, p.lat, LatZones(useOdd));
    RecoveredWithinHalfQuantum(k, p.lon, EncodedLonZones(k, useOdd, p.lat));
  }

  lemma AlignedWhenNear(k: Kind, even: Fixed, odd: Fixed, turn: int)
    requires LonNear(k, SentZones(k, even), even.lon, odd.lon, turn)
    ensures Aligned(k, even, odd)
  {
    LonMovement(k, SentZones(k, even), odd.time < even.time, even.lon, odd.lon, turn);
  }

  /** Airborne accuracy: two reports of an aircraft that moved at most 0.0508 degrees of
      latitude and half a longitude zone step between them are decoded to where the
      aircraft was at the earlier report, within half a quantum each way, or refused. */
  lemma AirborneAccuracy(even: Fixed, odd: Fixed, turn: int)
    requires OnEarth(even) && OnEarth(odd)
    requires Abs(even.lat - odd.lat) <= 0.0508
    requires LonNear(Airborne, SentZones(Airborne, even), even.lon, odd.lon, turn)
    ensures var fix := AirFix(Sent(Airborne, false, even), Sent(Airborne, true, odd));
            var useOdd := odd.time < even.time;
            var used := Earlier(even, odd);
            && (fix.Ok? <==> SameZones(Airborne, even, odd) && Recent(even, odd))
            && (fix.Ok? ==>
                  && Abs(fix.value.latitude - used.lat) <= HalfLatQuantum(Airborne, useOdd)
                  && OnCircle(fix.value.longitude, used.lon, HalfLonQuantum(Airborne, useOdd, used))
                  && fix.value.cprDecodedTS == used.time)
  {
    var useOdd, used := odd.time < even.time, Earlier(even, odd);
    LatMovement(Airborne, even.lat, odd.lat);
    AirborneRoundTrip(even, odd);
    AlignedWhenNear(Airborne, even, odd, turn);
    SentWithinHalfQuantum(Airborne, useOdd, used);
    HemisphereLonOnCircle(SentLon(Airborne, useOdd, used), used.lon, HalfLonQuantum(Airborne, useOdd, used));
  }

  /** Range safety for arbitrary raw fields. */
  lemma AirborneRange(e: Report, o: Report)
    requires InRaw(e.lat, e.lon) && InRaw(o.lat, o.lon) && AirFix(e, o).Ok?
    ensures var p := AirFix(e, o).value; -90.0 <= p.latitude <= 90.0 && -180.0 < p.longitude <= 180.0
  {
    var lat0, lat1 := AirLat(RawLat(Airborne, false, e, o)), AirLat(RawLat(Airborne, true, e, o));
    var useOdd := UsesOdd(e, o);
    RawLonRange(Airborne, if useOdd then lat1 else lat0, NL(lat0), useOdd, e, o);
  }

  // --- surface -------------------------------------------------------------------

  /** The latitudes that a surface report with zone value r may stand for. */
  function LatCandidates(r: real): set<real> {
    if r == 0.0 then {-90.0, 0.0, 90.0} else {r, r - 90.0}
  }

  /** The chosen latitude is the candidate nearest the reference; a candidate strictly
      within 45 degrees of the reference is always the one chosen. */
  lemma SurfaceLatNearest(r: real, ref: real, candidate: real)
    requires 0.0 <= r < 90.0 && candidate in LatCandidates(r)
    ensures SurfaceLat(r, ref) in LatCandidates(r)
    ensures Abs(SurfaceLat(r, ref) - ref) <= Abs(candidate - ref)
    ensures Abs(candidate - ref) < 45.0 ==> SurfaceLat(r, ref) == candidate
  {
  }

  /** A latitude on earth is one of the candidates of its zone value. */
  lemma CandidateOfZone(lat: real)
    requires -90.0 <= lat <= 90.0
    ensures 0.0 <= RealMod(lat, 90.0) < 90.0
    ensures lat in LatCandidates(RealMod(lat, 90.0))
  {
    RealModRange(lat, 90.0);
    if lat == 90.0 {
      RealModUnique(lat, 90.0, 1, 0.0);
    } else if lat >= 0.0 {
      RealModUnique(lat, 90.0, 0, lat);
    } else {
      RealModUnique(lat, 90.0, -1, lat + 90.0);
    }
  }

  /** Moving a longitude to the quadrant of the reference: same zone value, and the one
      and only such longitude in (ref - 45, ref + 45]. */
  lemma NearestQuadrantUnique(x: real, ref: real, y: real, t: int)
    requires y == x + 90.0 * t as real
    ensures ref - 45.0 < NearestQuadrant(x, ref) <= ref + 45.0
    ensures NearestQuadrant(x, ref) == y <==> ref - 45.0 < y <= ref + 45.0
  {
    var f := ((ref - x + 45.0) / 90.0).Floor;
    assert f as real <= (ref - x + 45.0) / 90.0 < f as real + 1.0;
    if ref - 45.0 < y <= ref + 45.0 {
      assert t == f;
    }
  }

  lemma WrapLonUnique(x: real, turn: int)
    ensures -180.0 <= WrapLon(x) < 180.0
    ensures WrapLon(x - 360.0 * turn as real) == WrapLon(x)
  {
    var f := ((x + 180.0) / 360.0).Floor;
    assert f as real <= (x + 180.0) / 360.0 < f as real + 1.0;
    assert (x - 360.0 * turn as real + 180.0) / 360.0 == (x + 180.0) / 360.0 - turn as real;
    FloorShift((x + 180.0) / 360.0, turn);
  }

  /** The longitude a surface decode reports is in [-180, 180), congruent to the zone
      value modulo 90 and within 45 degrees of the reference on the circle; a longitude
      strictly within that window is recovered from its zone value. */
  lemma SurfaceLonExact(lon: real, ref: real)
    ensures var s := SurfaceLon(RealMod(lon, 90.0), ref);
            && -180.0 <= s < 180.0
            && OnCircle(s, ref, 45.0)
            && (exists t: int :: ApartBy90(s, lon, t))
            && (forall turn: int :: ApartBy(lon, ref, turn, 45.0) && Abs(lon - ref - 360.0 * turn as real) < 45.0
                    ==> s == WrapLon(lon))
  {
    var x := RealMod(lon, 90.0);
    RealModRange(lon, 90.0);
    var f, q := ((ref - x + 45.0) / 90.0).Floor, (lon / 90.0).Floor;
    var y := NearestQuadrant(x, ref);
    NearestQuadrantUnique(x, ref, y, f);
    WrapLonUnique(y, 0);
    var s, w := WrapLon(y), ((y + 180.0) / 360.0).Floor;
    assert ApartBy(s, ref, -w, 45.0);
    assert ApartBy90(s, lon, f - q - 4 * w);
    forall turn: int | ApartBy(lon, ref, turn, 45.0) && Abs(lon - ref - 360.0 * turn as real) < 45.0
      ensures s == WrapLon(lon)
    {
      NearestQuadrantUnique(x, ref, lon - 360.0 * turn as real, q - 4 * turn);
      WrapLonUnique(lon, turn);
    }
  }

  predicate ApartBy90(a: real, b: real, t: int) {
    a - b == 90.0 * t as real
  }

  /** Both positions lie strictly within 45 degrees of the reference latitude. */
  predicate LatInWindow(even: Fixed, odd: Fixed, refLat: real) {
    && Abs(SentLat(Surface, false, even) - refLat) < 45.0
    && Abs(SentLat(Surface, true, odd) - refLat) < 45.0
  }

  /** The zone value is determined by the latitude chosen for it. */
  lemma ZoneOfSurfaceLat(r: real, ref: real)
    requires 0.0 <= r < 90.0
    ensures RealMod(SurfaceLat(r, ref), 90.0) == r
  {
    var lat := SurfaceLat(r, ref);
    RealModUnique(lat, 90.0, if lat == 90.0 then 1 else if lat < 0.0 then -1 else 0, r);
  }

  /** Surface latitude, exactly: a latitude sent from strictly within 45 degrees of the
      reference is recovered if and only if the slip is a multiple of its zone count. */
  lemma SurfaceLatitudeExact(odd: bool, even': Fixed, odd': Fixed, refLat: real)
    requires OnEarth(even') && OnEarth(odd')
    ensures var sent := SentLat(Surface, odd, if odd then odd' else even');
            Abs(sent - refLat) < 45.0 ==>
              (SurfaceLat(RawLat(Surface, odd, Sent(Surface, false, even'), Sent(Surface, true, odd')), refLat) == sent
               <==> LatSlip(Surface, even'.lat, odd'.lat) % LatZones(odd) == 0)
  {
    var e, o := Sent(Surface, false, even'), Sent(Surface, true, odd');
    TransmittedLat(Surface, false, even'.lat, even'.lon, even'.time);
    TransmittedLat(Surface, true, odd'.lat, odd'.lon, odd'.time);
    RawLatRecovers(Surface, odd, even'.lat, odd'.lat, e, o);
    RawLatRange(Surface, odd, e, o);
    var p := if odd then odd' else even';
    var sent, r := SentLat(Surface, odd, p), RawLat(Surface, odd, e, o);
    RecoveredLatInRange(Surface, odd, p.lat);
    CandidateOfZone(sent);
    ZoneOfSurfaceLat(r, refLat);
    if r == RealMod(sent, 90.0) {
      SurfaceLatNearest(r, refLat, sent);
    }
  }

  /** Surface round trip: with a reference, reports from strictly inside its latitude
      window decode like airborne ones, and a longitude strictly inside the longitude
      window comes back as it was sent. */
  lemma SurfaceRoundTrip(even: Fixed, odd: Fixed, refLat: real, refLon: real)
    requires OnEarth(even) && OnEarth(odd) && LatSlip(Surface, even.lat, odd.lat) == 0
    requires !(refLat == 0.0 && refLon == 0.0) && LatInWindow(even, odd, refLat)
    ensures var fix := SurfaceFix(Sent(Surface, false, even), Sent(Surface, true, odd), refLat, refLon);
            var useOdd := odd.time < even.time;
            var used := Earlier(even, odd);
            && (!SameZones(Surface, even, odd) ==> fix == Err(ZoneMismatch))
            && (SameZones(Surface, even, odd) && !Recent(even, odd) ==> fix == Err(TooFarApart))
            && (SameZones(Surface, even, odd) && Recent(even, odd) ==>
                  && fix.Ok?
                  && fix.value.latitude == SentLat(Surface, useOdd, used)
                  && fix.value.cprDecodedTS == used.time
                  && fix.value.onGround
                  && (fix.value.longitude == SurfaceLon(RealMod(SentLon(Surface, useOdd, used), 90.0), refLon)
                      <==> Aligned(Surface, even, odd)))
  {
    SurfaceLatitudeExact(false, even, odd, refLat);
    SurfaceLatitudeExact(true, even, odd, refLat);
    RecoveredLatInRange(Surface, false, even.lat);
    RecoveredLatInRange(Surface, true, odd.lat);
    FixExact(Surface, even, odd, refLon);
    var sent := SentLon(Surface, odd.time < even.time, Earlier(even, odd));
    RealModRange(sent, 90.0);
    if SameZones(Surface, even, odd) {
      UsedRawLonExact(Surface, even, odd);
      SurfaceLonInjective(UsedRawLon(Surface, even, odd), RealMod(sent, 90.0), refLon);
    }
  }

  /** Different zone values give different longitudes near the same reference. */
  lemma SurfaceLonInjective(x: real, y: real, ref: real)
    requires 0.0 <= x < 90.0 && 0.0 <= y < 90.0
    ensures SurfaceLon(x, ref) == SurfaceLon(y, ref) ==> x == y
  {
    var f, g := ((ref - x + 45.0) / 90.0).Floor, ((ref - y + 45.0) / 90.0).Floor;
    NearestQuadrantUnique(x, ref, x, 0);
    NearestQuadrantUnique(y, ref, y, 0);
    var u, v := NearestQuadrant(x, ref), NearestQuadrant(y, ref);
    WrapLonUnique(u, 0);
    WrapLonUnique(v, 0);
    if SurfaceLon(x, ref) == SurfaceLon(y, ref) {
      SameTurn(u, v);
      assert x - y == 90.0 * (g - f) as real;
    }
  }

  lemma SameTurn(u: real, v: real)
    requires -90.0 < u - v < 90.0 && WrapLon(u) == WrapLon(v)
    ensures u == v
  {
    var turns := ((u + 180.0) / 360.0).Floor - ((v + 180.0) / 360.0).Floor;
    assert u - v == 360.0 * turns as real;
  }

  /** Surface accuracy: inside the window and moving little, the decoded position is
      within half a (19-bit) quantum of where the aircraft was at the earlier report. */
  lemma SurfaceAccuracy(even: Fixed, odd: Fixed, refLat: real, refLon: real, turn: int, refTurn: int)
    requires OnEarth(even) && OnEarth(odd)
    requires !(refLat == 0.0 && refLon == 0.0) && LatInWindow(even, odd, refLat)
    requires Abs(even.lat - odd.lat) <= 0.0127
    requires LonNear(Surface, SentZones(Surface, even), even.lon, odd.lon, turn)
    requires Abs(SentLon(Surface, odd.time < even.time, Earlier(even, odd)) - refLon - 360.0 * refTurn as real) < 45.0
    ensures var fix := SurfaceFix(Sent(Surface, false, even), Sent(Surface, true, odd), refLat, refLon);
            var useOdd := odd.time < even.time;
            var used := Earlier(even, odd);
            && (fix.Ok? <==> SameZones(Surface, even, odd) && Recent(even, odd))
            && (fix.Ok? ==>
                  && Abs(fix.value.latitude - used.lat) <= HalfLatQuantum(Surface, useOdd)
                  && OnCircle(fix.value.longitude, used.lon, HalfLonQuantum(Surface, useOdd, used))
                  && fix.value.cprDecodedTS == used.time)
  {
    var useOdd, used := odd.time < even.time, Earlier(even, odd);
    LatMovement(Surface, even.lat, odd.lat);
    SurfaceRoundTrip(even, odd, refLat, refLon);
    AlignedWhenNear(Surface, even, odd, turn);
    SentWithinHalfQuantum(Surface, useOdd, used);
    SurfaceLonInWindow(SentLon(Surface, useOdd, used), refLon, refTurn, used.lon, HalfLonQuantum(Surface, useOdd, used));
  }

  /** The same for where the aircraft truly is: with half a quantum to spare to the edges of
      the windows, it is found within half a quantum. */
  lemma SurfaceAccuracyTrue(even: Fixed, odd: Fixed, refLat: real, refLon: real, turn: int, refTurn: int)
    requires OnEarth(even) && OnEarth(odd) && !(refLat == 0.0 && refLon == 0.0)
    requires Abs(even.lat - refLat) + HalfLatQuantum(Surface, false) < 45.0
    requires Abs(odd.lat - refLat) + HalfLatQuantum(Surface, true) < 45.0
    requires Abs(even.lat - odd.lat) <= 0.0127
    requires LonNear(Surface, SentZones(Surface, even), even.lon, odd.lon, turn)
    requires var useOdd, used := odd.time < even.time, Earlier(even, odd);
             Abs(used.lon - refLon - 360.0 * refTurn as real) + HalfLonQuantum(Surface, useOdd, used) < 45.0
    ensures var fix := SurfaceFix(Sent(Surface, false, even), Sent(Surface, true, odd), refLat, refLon);
            var useOdd := odd.time < even.time;
            var used := Earlier(even, odd);
            && (fix.Ok? <==> SameZones(Surface, even, odd) && Recent(even, odd))
            && (fix.Ok? ==>
                  && Abs(fix.value.latitude - used.lat) <= HalfLatQuantum(Surface, useOdd)
                  && OnCircle(fix.value.longitude, used.lon, HalfLonQuantum(Surface, useOdd, used))
                  && fix.value.cprDecodedTS == used.time)
  {
    SentWithinHalfQuantum(Surface, false, even);
    SentWithinHalfQuantum(Surface, true, odd);
    SurfaceAccuracy(even, odd, refLat, refLon, turn, refTurn);
  }

  lemma SurfaceLonInWindow(sent: real, refLon: real, refTurn: int, lon: real, eps: real)
    requires Abs(sent - refLon - 360.0 * refTurn as real) < 45.0 && Abs(sent - lon) <= eps
    ensures OnCircle(SurfaceLon(RealMod(sent, 90.0), refLon), lon, eps)
  {
    SurfaceLonExact(sent, refLon);
    assert ApartBy(sent, refLon, refTurn, 45.0);
    WrapLonOnCircle(sent, lon, eps);
  }

  lemma WrapLonOnCircle(sent: real, lon: real, eps: real)
    requires Abs(sent - lon) <= eps
    ensures OnCircle(WrapLon(sent), lon, eps)
  {
    assert ApartBy(WrapLon(sent), lon, -((sent + 180.0) / 360.0).Floor, eps);
  }

  /** Range safety for arbitrary raw fields; the latitude check never fails. */
  lemma SurfaceRange(e: Report, o: Report, refLat: real, refLon: real)
    requires InRaw(e.lat, e.lon) && InRaw(o.lat, o.lon)
    ensures SurfaceFix(e, o, refLat, refLon) != Err(LatitudeOutOfRange)
    ensures SurfaceFix(e, o, refLat, refLon).Ok? ==>
              var p := SurfaceFix(e, o, refLat, refLon).value;
              -90.0 <= p.latitude <= 90.0 && -180.0 <= p.longitude < 180.0
  {
    SurfaceLatRange(false, e, o, refLat);
    SurfaceLatRange(true, e, o, refLat);
    forall x: real
      ensures -180.0 <= SurfaceLon(x, refLon) < 180.0
    {
      WrapLonUnique(NearestQuadrant(x, refLon), 0);
    }
  }

  lemma SurfaceLatRange(odd: bool, e: Report, o: Report, refLat: real)
    requires InRaw(e.lat, e.lon) && InRaw(o.lat, o.lon)
    ensures -90.0 <= SurfaceLat(RawLat(Surface, odd, e, o), refLat) <= 90.0
  {
    RawLatRange(Surface, odd, e, o);
  }
}
