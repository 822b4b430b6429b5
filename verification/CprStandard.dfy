/** A transponder that counts longitude zones by the standard's formula (sections A.1.7.2 to
    A.1.7.4 of Appendix A to RTCA DO-260B), and what becomes of its reports in a decoder that
    looks the counts up in a table. */
module CprStandard {
  import opened Basics
  import opened NlTable
  import opened NlStandard
  import opened CprEncoding
  import opened CprDecoder
  import opened CprRoundTrip
  import opened CprTheorems

  // --- the transponder ------------------------------------------------------------------------

  /** Nb is 17 bits in the air and 19 on the ground. */
  function Steps(k: Kind): int {
    if k.Airborne? then 131072 else 524288
  }

  /** floor(2^Nb * MOD(x, d) / d + 1/2) */
  function StandardBits(k: Kind, x: real, d: real): int
    requires d > 0.0
  {
    (Steps(k) as real * ((x - d * (x / d).Floor as real) / d) + 0.5).Floor
  }

  function StandardDlat(odd: bool): (d: real)
    ensures d > 0.0
  {
    if odd then 360.0 / 59.0 else 360.0 / 60.0
  }

  /** Rlat, the latitude that a receiver will extract. */
  function StandardRlat(k: Kind, odd: bool, lat: real): real {
    var d := StandardDlat(odd);
    d * (StandardBits(k, lat, d) as real / Steps(k) as real + (lat / d).Floor as real)
  }

  ghost function StandardZones(cos: real -> real, pi: real, k: Kind, odd: bool, lat: real): (n: int)
    ensures 1 <= n <= 59
  {
    StandardNL(cos, pi, StandardRlat(k, odd, lat))
  }

  /** Dlon: 360 degrees over NL zones, or over NL - 1 in odd reports, if there are any. */
  ghost function StandardDlon(cos: real -> real, pi: real, k: Kind, odd: bool, lat: real): (d: real)
    ensures d > 0.0
  {
    var n := StandardZones(cos, pi, k, odd, lat) - if odd then 1 else 0;
    if n > 0 then 360.0 / n as real else 360.0
  }

  /** A report: the 17 lower bits of each coordinate. */
  ghost function StandardReport(cos: real -> real, pi: real, k: Kind, odd: bool, p: Fixed): Report {
    var yz := StandardBits(k, p.lat, StandardDlat(odd)) % 131072;
    var xz := StandardBits(k, p.lon, StandardDlon(cos, pi, k, odd, p.lat)) % 131072;
    Report(yz as real, xz as real, p.time)
  }

  // --- latitudes that are sent ----------------------------------------------------------------

  lemma SameWidths(k: Kind, odd: bool)
    ensures Steps(k) == k.Scale() && StandardDlat(odd) == Width(LatZones(odd))
  {
  }

  lemma SameBits(k: Kind, x: real, d: real)
    requires d > 0.0
    ensures StandardBits(k, x, d) == FieldBits(k, x, d)
  {
    SameWidths(k, false);
    assert x - d * (x / d).Floor as real == RealMod(x, d);
  }

  lemma RlatIsRecovered(k: Kind, odd: bool, lat: real)
    ensures StandardRlat(k, odd, lat) == RecoveredLat(k, odd, lat)
  {
    SameWidths(k, odd);
    SameBits(k, lat, StandardDlat(odd));
    FieldIsUnreduced(k, lat, LatZones(odd));
    SameRlat(StandardDlat(odd), Width(LatZones(odd)), StandardBits(k, lat, StandardDlat(odd)), Steps(k), k.Scale(), lat);
  }

  lemma SameRlat(d: real, e: real, bits: int, s: int, t: int, lat: real)
    requires d == e > 0.0 && s == t > 0
    ensures d * (bits as real / s as real + (lat / d).Floor as real) == e * (bits as real / t as real + (lat / e).Floor as real)
  {
  }

  /** Latitudes are sent in steps of this many degrees or of four of them. */
  function Grid(odd: bool): real {
    if odd then 360.0 / 30932992.0 else 360.0 / 31457280.0
  }

  lemma OnGrid(k: Kind, odd: bool, lat: real) returns (v: nat)
    ensures Abs(RecoveredLat(k, odd, lat)) == Grid(odd) * v as real
  {
    var u := Unreduced(k, lat, LatZones(odd));
    var w := if k.Airborne? then 4 * u else u;
    assert RecoveredLat(k, odd, lat) == Grid(odd) * w as real;
    v := if w >= 0 then w else -w;
  }

  /** No report carries a latitude where the rounding of the table could matter. */
  lemma GridIsClear(n: int, v: nat, odd: bool)
    requires 3 <= n <= 59
    ensures ClearOf(n, Grid(odd) * v as real)
  {
  }

  /** For every latitude that is sent the table agrees with the standard, but for even reports
      from exactly 87 degrees north or south. */
  lemma SentZonesExact(cos: real -> real, pi: real, k: Kind, odd: bool, lat: real)
    requires IsCosine(cos) && IsPi(pi)
    ensures StandardZones(cos, pi, k, odd, lat) == NL(RecoveredLat(k, odd, lat)) <==> Abs(RecoveredLat(k, odd, lat)) != 87.0
    ensures Abs(RecoveredLat(k, odd, lat)) == 87.0 ==>
              !odd && StandardZones(cos, pi, k, odd, lat) == 2 && NL(RecoveredLat(k, odd, lat)) == 1
  {
    RlatIsRecovered(k, odd, lat);
    var v := OnGrid(k, odd, lat);
    forall n | 3 <= n <= 59
      ensures ClearOf(n, Abs(RecoveredLat(k, odd, lat)))
    {
      GridIsClear(n, v, odd);
    }
    TableIsStandard(cos, pi, RecoveredLat(k, odd, lat));
  }

  predicate OnEdge(k: Kind, odd: bool, p: Fixed) {
    !odd && Abs(SentLat(k, odd, p)) == 87.0
  }

  lemma SameDlon(n: int, m: int, odd: bool, d: real)
    requires n == m && 1 <= m <= 59
    requires d == var i := n - if odd then 1 else 0; if i > 0 then 360.0 / i as real else 360.0
    ensures d == Width(var i := m - if odd then 1 else 0; if i < 1 then 1 else i)
  {
  }

  /** So the zone counts and widths are those of the encoder that all other results are about, ... */
  lemma SameZonesSent(cos: real -> real, pi: real, k: Kind, odd: bool, p: Fixed)
    requires IsCosine(cos) && IsPi(pi) && !OnEdge(k, odd, p)
    ensures StandardZones(cos, pi, k, odd, p.lat) == NL(SentLat(k, odd, p))
    ensures StandardDlon(cos, pi, k, odd, p.lat) == Width(EncodedLonZones(k, odd, p.lat))
  {
    SentZonesExact(cos, pi, k, odd, p.lat);
    SameDlon(StandardZones(cos, pi, k, odd, p.lat), NL(SentLat(k, odd, p)), odd, StandardDlon(cos, pi, k, odd, p.lat));
  }

  /** ... and the reports too. */
  lemma SameReport(cos: real -> real, pi: real, k: Kind, odd: bool, p: Fixed)
    requires IsCosine(cos) && IsPi(pi) && !OnEdge(k, odd, p)
    ensures StandardReport(cos, pi, k, odd, p) == Sent(k, odd, p)
  {
    SameZonesSent(cos, pi, k, odd, p);
    SameWidths(k, odd);
    SameBits(k, p.lat, StandardDlat(odd));
    SameBits(k, p.lon, StandardDlon(cos, pi, k, odd, p.lat));
  }

  lemma Quanta(k: Kind, odd: bool, p: Fixed, dlat: real, dlon: real)
    requires dlat == Width(LatZones(odd)) && dlon == Width(EncodedLonZones(k, odd, p.lat))
    ensures HalfLatQuantum(k, odd) == dlat / (if k.Airborne? then 262144.0 else 1048576.0)
    ensures HalfLonQuantum(k, odd, p) == dlon / (if k.Airborne? then 262144.0 else 1048576.0)
  {
  }

  // --- round trips ------------------------------------------------------------------------------

  /** A pair is decoded when its zone counts are the same and it is recent, and then to the
      position of the earlier report with these errors, at its time. */
  ghost predicate Accurate(fix: Result<Position>, n0: int, n1: int, recent: bool, used: Fixed, latError: real, lonError: real) {
    && (fix.Ok? <==> n0 == n1 && recent)
    && (fix.Ok? ==>
          && Abs(fix.value.latitude - used.lat) <= latError
          && OnCircle(fix.value.longitude, used.lon, lonError)
          && fix.value.cprDecodedTS == used.time)
  }

  lemma AirborneFix(even: Fixed, odd: Fixed, turn: int, e: Report, o: Report, n0: int, n1: int, latError: real, lonError: real)
    requires OnEarth(even) && OnEarth(odd) && Abs(even.lat - odd.lat) <= 0.0508
    requires LonNear(Airborne, SentZones(Airborne, even), even.lon, odd.lon, turn)
    requires e == Sent(Airborne, false, even) && o == Sent(Airborne, true, odd)
    requires n0 == NL(SentLat(Airborne, false, even)) && n1 == NL(SentLat(Airborne, true, odd))
    requires latError == HalfLatQuantum(Airborne, odd.time < even.time)
    requires lonError == HalfLonQuantum(Airborne, odd.time < even.time, Earlier(even, odd))
    ensures Accurate(AirFix(e, o), n0, n1, Recent(even, odd), Earlier(even, odd), latError, lonError)
  {
    AirborneAccuracy(even, odd, turn);
  }

  /** Airborne accuracy for reports of such a transponder: refused, or within half a quantum. */
  lemma StandardAirborne(cos: real -> real, pi: real, even: Fixed, odd: Fixed, turn: int,
                         e: Report, o: Report, n0: int, n1: int, latError: real, lonError: real)
    requires e == StandardReport(cos, pi, Airborne, false, even) && o == StandardReport(cos, pi, Airborne, true, odd)
    requires IsCosine(cos) && IsPi(pi) && OnEarth(even) && OnEarth(odd) && !OnEdge(Airborne, false, even)
    requires Abs(even.lat - odd.lat) <= 0.0508
    requires LonNear(Airborne, StandardZones(cos, pi, Airborne, false, even.lat), even.lon, odd.lon, turn)
    requires n0 == StandardZones(cos, pi, Airborne, false, even.lat) && n1 == StandardZones(cos, pi, Airborne, true, odd.lat)
    requires latError == StandardDlat(odd.time < even.time) / 262144.0
    requires lonError == StandardDlon(cos, pi, Airborne, odd.time < even.time, Earlier(even, odd).lat) / 262144.0
    ensures Accurate(AirFix(e, o), n0, n1, Recent(even, odd), Earlier(even, odd), latError, lonError)
  {
    SameReport(cos, pi, Airborne, false, even);
    SameReport(cos, pi, Airborne, true, odd);
    SameZonesSent(cos, pi, Airborne, false, even);
    SameZonesSent(cos, pi, Airborne, true, odd);
    var useOdd, used := odd.time < even.time, Earlier(even, odd);
    Quanta(Airborne, useOdd, used, StandardDlat(useOdd), StandardDlon(cos, pi, Airborne, useOdd, used.lat));
    AirborneFix(even, odd, turn, e, o, n0, n1, latError, lonError);
  }

  lemma SurfaceFixed(even: Fixed, odd: Fixed, refLat: real, refLon: real, turn: int, refTurn: int,
                     e: Report, o: Report, n0: int, n1: int, latError: real, lonError: real)
    requires OnEarth(even) && OnEarth(odd) && !(refLat == 0.0 && refLon == 0.0) && Abs(even.lat - odd.lat) <= 0.0127
    requires Abs(even.lat - refLat) + HalfLatQuantum(Surface, false) < 45.0
    requires Abs(odd.lat - refLat) + HalfLatQuantum(Surface, true) < 45.0
    requires LonNear(Surface, SentZones(Surface, even), even.lon, odd.lon, turn)
    requires var useOdd, used := odd.time < even.time, Earlier(even, odd);
             Abs(used.lon - refLon - 360.0 * refTurn as real) + HalfLonQuantum(Surface, useOdd, used) < 45.0
    requires e == Sent(Surface, false, even) && o == Sent(Surface, true, odd)
    requires n0 == NL(SentLat(Surface, false, even)) && n1 == NL(SentLat(Surface, true, odd))
    requires latError == HalfLatQuantum(Surface, odd.time < even.time)
    requires lonError == HalfLonQuantum(Surface, odd.time < even.time, Earlier(even, odd))
    ensures Accurate(SurfaceFix(e, o, refLat, refLon), n0, n1, Recent(even, odd), Earlier(even, odd), latError, lonError)
  {
    SurfaceAccuracyTrue(even, odd, refLat, refLon, turn, refTurn);
  }

  /** Surface accuracy for such a transponder. */
  lemma StandardSurface(cos: real -> real, pi: real, even: Fixed, odd: Fixed, refLat: real, refLon: real, turn: int, refTurn: int,
                        e: Report, o: Report, n0: int, n1: int, latError: real, lonError: real)
    requires e == StandardReport(cos, pi, Surface, false, even) && o == StandardReport(cos, pi, Surface, true, odd)
    requires IsCosine(cos) && IsPi(pi) && OnEarth(even) && OnEarth(odd) && !OnEdge(Surface, false, even)
    requires !(refLat == 0.0 && refLon == 0.0) && Abs(even.lat - odd.lat) <= 0.0127
    requires Abs(even.lat - refLat) + StandardDlat(false) / 1048576.0 < 45.0
    requires Abs(odd.lat - refLat) + StandardDlat(true) / 1048576.0 < 45.0
    requires LonNear(Surface, StandardZones(cos, pi, Surface, false, even.lat), even.lon, odd.lon, turn)
    requires var useOdd, used := odd.time < even.time, Earlier(even, odd);
             Abs(used.lon - refLon - 360.0 * refTurn as real) + StandardDlon(cos, pi, Surface, useOdd, used.lat) / 1048576.0 < 45.0
    requires n0 == StandardZones(cos, pi, Surface, false, even.lat) && n1 == StandardZones(cos, pi, Surface, true, odd.lat)
    requires latError == StandardDlat(odd.time < even.time) / 1048576.0
    requires lonError == StandardDlon(cos, pi, Surface, odd.time < even.time, Earlier(even, odd).lat) / 1048576.0
    ensures Accurate(SurfaceFix(e, o, refLat, refLon), n0, n1, Recent(even, odd), Earlier(even, odd), latError, lonError)
  {
    SameReport(cos, pi, Surface, false, even);
    SameReport(cos, pi, Surface, true, odd);
    SameZonesSent(cos, pi, Surface, false, even);
    SameZonesSent(cos, pi, Surface, true, odd);
    var useOdd, used := odd.time < even.time, Earlier(even, odd);
    Quanta(Surface, useOdd, used, StandardDlat(useOdd), StandardDlon(cos, pi, Surface, useOdd, used.lat));
    Quanta(Surface, !useOdd, used, StandardDlat(!useOdd), Width(EncodedLonZones(Surface, !useOdd, used.lat)));
    SurfaceFixed(even, odd, refLat, refLon, turn, refTurn, e, o, n0, n1, latError, lonError);
  }

  // --- the two latitudes where they differ --------------------------------------------------------

  /** The longitude that such an even report carries, in one of two zones. */
  function EdgeLon(p: Fixed): real {
    180.0 * (StandardBits(Airborne, p.lon, 180.0) as real / 131072.0 + (p.lon / 180.0).Floor as real)
  }

  lemma EdgeReport(cos: real -> real, pi: real, even: Fixed, e: Report, yz: int, xz: int)
    requires IsCosine(cos) && IsPi(pi) && OnEdge(Airborne, false, even) && e == StandardReport(cos, pi, Airborne, false, even)
    requires yz == FieldBits(Airborne, even.lat, Width(LatZones(false))) && xz == StandardBits(Airborne, even.lon, 180.0)
    ensures e == Report((yz % 131072) as real, (xz % 131072) as real, even.time)
    ensures NL(SentLat(Airborne, false, even)) == 1
  {
    SentZonesExact(cos, pi, Airborne, false, even.lat);
    SameWidths(Airborne, false);
    SameBits(Airborne, even.lat, StandardDlat(false));
    assert StandardDlon(cos, pi, Airborne, false, even.lat) == 180.0;
  }

  lemma OneZone(lat: real, e: Report, o: Report)
    requires NL(lat) == 1
    ensures RawLon(Airborne, lat, 1, false, e, o) == 360.0 * (e.lon / 131072.0)
  {
  }

  /** The latitudes do not depend on the longitude fields. */
  lemma EdgeLatitudes(even: Fixed, odd: Fixed, e: Report, o: Report)
    requires OnEarth(even) && OnEarth(odd) && Abs(even.lat - odd.lat) <= 0.0508
    requires e.lat == Sent(Airborne, false, even).lat && o.lat == Sent(Airborne, true, odd).lat
    ensures AirLat(RawLat(Airborne, false, e, o)) == SentLat(Airborne, false, even)
    ensures AirLat(RawLat(Airborne, true, e, o)) == SentLat(Airborne, true, odd)
  {
    LatMovement(Airborne, even.lat, odd.lat);
    AirLatitudeExact(even.lat, even.lon, even.time, odd.lat, odd.lon, odd.time);
    SameRawLat(e, o, Sent(Airborne, false, even), Sent(Airborne, true, odd));
  }

  lemma SameRawLat(e: Report, o: Report, e': Report, o': Report)
    requires e.lat == e'.lat && o.lat == o'.lat
    ensures RawLat(Airborne, false, e, o) == RawLat(Airborne, false, e', o')
    ensures RawLat(Airborne, true, e, o) == RawLat(Airborne, true, e', o')
  {
  }

  lemma EdgeDecoded(even: Fixed, odd: Fixed, e: Report, o: Report, x: real)
    requires OnEarth(even) && OnEarth(odd) && Abs(even.lat - odd.lat) <= 0.0508 && NL(SentLat(Airborne, false, even)) == 1
    requires e.lat == Sent(Airborne, false, even).lat && o.lat == Sent(Airborne, true, odd).lat
    requires e.time <= o.time && x == 360.0 * (e.lon / 131072.0) && AirFix(e, o).Ok?
    ensures AirFix(e, o).value.longitude == AirLon(x)
  {
    EdgeLatitudes(even, odd, e, o);
    OneZone(SentLat(Airborne, false, even), e, o);
  }

  lemma Doubled(bits: int, q: int, lon: real, sent: real)
    requires sent == 180.0 * (bits as real / 131072.0 + q as real) && lon == (bits % 131072) as real
    ensures 360.0 * (lon / 131072.0) == 2.0 * sent - 360.0 * (q + bits / 131072) as real
  {
    assert bits == 131072 * (bits / 131072) + bits % 131072;
  }

  lemma DoubledRight(y: real, sent: real, turn: int)
    requires y == 2.0 * sent - 360.0 * turn as real
    ensures OnCircle(y, sent, 0.0) <==> OnCircle(sent, 0.0, 0.0)
  {
    if t: int :| ApartBy(y, sent, t, 0.0) {
      assert ApartBy(sent, 0.0, t + turn, 0.0);
    }
    if t: int :| ApartBy(sent, 0.0, t, 0.0) {
      assert ApartBy(y, sent, t - turn, 0.0);
    }
  }

  /** From there, an even report that is the earlier one is decoded to twice its longitude:
      right only on the prime meridian. */
  lemma EdgeDoubles(cos: real -> real, pi: real, even: Fixed, odd: Fixed, e: Report, o: Report) returns (turn: int)
    requires IsCosine(cos) && IsPi(pi) && OnEarth(even) && OnEarth(odd) && OnEdge(Airborne, false, even)
    requires e == StandardReport(cos, pi, Airborne, false, even) && o == StandardReport(cos, pi, Airborne, true, odd)
    requires Abs(even.lat - odd.lat) <= 0.0508 && even.time <= odd.time && AirFix(e, o).Ok?
    ensures AirFix(e, o).value.longitude == 2.0 * EdgeLon(even) - 360.0 * turn as real
    ensures OnCircle(AirFix(e, o).value.longitude, EdgeLon(even), 0.0) <==> OnCircle(EdgeLon(even), 0.0, 0.0)
  {
    var bits, q, x := StandardBits(Airborne, even.lon, 180.0), (even.lon / 180.0).Floor, 360.0 * (e.lon / 131072.0);
    EdgeReport(cos, pi, even, e, FieldBits(Airborne, even.lat, Width(LatZones(false))), bits);
    SameReport(cos, pi, Airborne, true, odd);
    EdgeDecoded(even, odd, e, o, x);
    Doubled(bits, q, e.lon, EdgeLon(even));
    turn := q + bits / 131072 + if x > 180.0 then 1 else 0;
    DoubledRight(AirFix(e, o).value.longitude, EdgeLon(even), turn);
  }

  lemma EdgeFixes(even: Fixed, odd: Fixed, e: Report, o: Report)
    requires OnEarth(even) && OnEarth(odd) && Abs(even.lat - odd.lat) <= 0.0508
    requires NL(SentLat(Airborne, false, even)) == 1 && NL(SentLat(Airborne, true, odd)) == 1
    requires e.lat == Sent(Airborne, false, even).lat && o.lat == Sent(Airborne, true, odd).lat
    requires e.time == o.time
    ensures AirFix(e, o).Ok?
  {
    EdgeLatitudes(even, odd, e, o);
    RecoveredLatInRange(Airborne, false, even.lat);
    RecoveredLatInRange(Airborne, true, odd.lat);
  }

  const EDGE := Fixed(87.0, 90.0, 0)

  const BEYOND := Fixed(87.01, 90.0, 0)

  lemma EdgeLatSent()
    ensures RecoveredLat(Airborne, false, 87.0) == 87.0
  {
    assert Width(60) == 6.0;
    assert Unreduced(Airborne, 87.0, 60) == 1900544;
  }

  lemma EdgeLonSent()
    ensures EdgeLon(EDGE) == 90.0
  {
    assert (90.0 / 180.0).Floor == 0;
    assert StandardBits(Airborne, 90.0, 180.0) == 65536;
  }

  lemma OddLatSent(p: Fixed, sent: real)
    requires sent == SentLat(Airborne, true, p)
    ensures Abs(sent - p.lat) < 0.001
  {
    RecoveredWithinHalfQuantum(Airborne, p.lat, 59);
  }

  lemma OneZoneBeyond(lat: real)
    requires lat > 87.0
    ensures NL(lat) == 1
  {
    NLCharacterised(lat, 1);
  }

  lemma BeyondSent(p: Fixed, sent: real)
    requires sent == SentLat(Airborne, true, p) && p.lat == 87.01
    ensures NL(sent) == 1
  {
    OddLatSent(p, sent);
    OneZoneBeyond(sent);
  }

  /** Such a pair: sent from 90 degrees east, decoded to 180. */
  lemma EdgeWitness(cos: real -> real, pi: real, e: Report, o: Report)
    requires IsCosine(cos) && IsPi(pi)
    requires e == StandardReport(cos, pi, Airborne, false, EDGE) && o == StandardReport(cos, pi, Airborne, true, BEYOND)
    ensures AirFix(e, o).Ok? && OnCircle(AirFix(e, o).value.longitude, 180.0, 0.0)
  {
    EdgeLatSent();
    EdgeLonSent();
    BeyondSent(BEYOND, SentLat(Airborne, true, BEYOND));
    EdgeReport(cos, pi, EDGE, e, FieldBits(Airborne, EDGE.lat, Width(LatZones(false))), StandardBits(Airborne, EDGE.lon, 180.0));
    SameReport(cos, pi, Airborne, true, BEYOND);
    EdgeFixes(EDGE, BEYOND, e, o);
    var turn := EdgeDoubles(cos, pi, EDGE, BEYOND, e, o);
    assert ApartBy(AirFix(e, o).value.longitude, 180.0, -turn, 0.0);
  }
}
