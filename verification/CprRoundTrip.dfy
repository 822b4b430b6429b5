/** Encoding followed by decoding: for any two positions, exactly when and what the
    decoder of lib/tracker/cpr.go recovers from the pair of reports. */
module CprRoundTrip {
  import opened Basics
  import opened NlTable
  import opened CprEncoding
  import opened CprDecoder

  /** The report a receiver gets at time t from an aircraft at (lat, lon). */
  function Transmit(k: Kind, odd: bool, lat: real, lon: real, t: int): Report {
    var f := Encode(k, odd, lat, lon);
    Report(f.yz as real, f.xz as real, t)
  }

  // --- one coordinate --------------------------------------------------------

  lemma RealModUnique(x: real, r: real, t: int, v: real)
    requires r > 0.0 && x == r * t as real + v && 0.0 <= v < r
    ensures RealMod(x, r) == v
  {
    QuotientBelowOne(v, r);
    assert x / r == t as real + v / r;
    assert (x / r).Floor == t;
  }

  lemma IndexOnIntegers(n1: int, x0: int, n0: int, x1: int)
    ensures ZoneIndex(n1, x0 as real, n0, x1 as real) == Rounded(n1 * x0 - n0 * x1)
  {
    RoundedIsFloor(n1 * x0 - n0 * x1);
    CastProduct(n1, x0);
    CastProduct(n0, x1);
  }

  lemma CastProduct(a: int, b: int)
    ensures (a * b) as real == a as real * b as real
  {
  }

  /** With its own zone number, a report's zone value is the coordinate less whole ranges. */
  lemma OwnZoneValue(k: Kind, n: int, u: int)
    requires n >= 1
    ensures RealMod(Width(n) * (u as real / k.Scale() as real), k.Range())
         == ZoneValue(k.Range(), n, u / BINS, (u % BINS) as real)
  {
    var good := ZoneValue(k.Range(), n, u / BINS, (u % BINS) as real);
    OwnZoneOffset(k, n, u);
    ZoneValueRange(k, n, u / BINS, (u % BINS) as real);
    RealModUnique(Width(n) * (u as real / k.Scale() as real), k.Range(), u / BINS / n, good);
  }

  lemma OwnZoneOffset(k: Kind, n: int, u: int)
    requires n >= 1
    ensures Width(n) * (u as real / k.Scale() as real)
         == k.Range() * (u / BINS / n) as real + ZoneValue(k.Range(), n, u / BINS, (u % BINS) as real)
  {
    var zone, x := u / BINS, u % BINS;
    RescaleWidth(k, n, u as real);
    CastProduct(n, zone / n);
    WidthTimes(k.Range(), n as real, (zone / n) as real, (zone % n) as real + x as real / 131072.0);
    assert u as real / 131072.0 == n as real * (zone / n) as real + ((zone % n) as real + x as real / 131072.0);
  }

  lemma RescaleWidth(k: Kind, n: int, u: real)
    requires n >= 1
    ensures Width(n) * (u / k.Scale() as real) == k.Range() / n as real * (u / 131072.0)
  {
    var d := n as real;
    if k.Surface? {
      assert 360.0 / d == 4.0 * (90.0 / d);
      assert u / 524288.0 == 0.25 * (u / 131072.0);
    }
  }

  lemma WidthTimes(range: real, d: real, t: real, f: real)
    requires d > 0.0
    ensures range / d * (d * t + f) == range / d * f + range * t
  {
    var w := range / d;
    assert w * d == range;
    assert w * (d * t) == range * t;
  }

  lemma SameZoneValue(range: real, n: int, i: int, j: int, raw: real)
    requires n >= 1 && range > 0.0
    ensures ZoneValue(range, n, i, raw) == ZoneValue(range, n, j, raw) <==> i % n == j % n
  {
    SameProduct(range / n as real, (i % n) as real + raw / 131072.0, (j % n) as real + raw / 131072.0);
  }

  lemma SameProduct(w: real, a: real, b: real)
    requires w > 0.0
    ensures w * a == w * b <==> a == b
  {
  }

  /** A zone value is the transmitted coordinate, modulo the range, exactly when the
      zone index is right modulo the zone count. */
  lemma ZoneValueRecovers(k: Kind, x: real, n: int, index: int)
    requires n >= 1
    ensures var u := Unreduced(k, x, n);
            ZoneValue(k.Range(), n, index, (u % BINS) as real) == RealMod(Recovered(k, x, n), k.Range())
            <==> index % n == (u / BINS) % n
  {
    ZoneOfUnreduced(k, n, index, Unreduced(k, x, n), Recovered(k, x, n));
  }

  lemma ZoneOfUnreduced(k: Kind, n: int, index: int, u: int, recovered: real)
    requires n >= 1 && recovered == Width(n) * (u as real / k.Scale() as real)
    ensures ZoneValue(k.Range(), n, index, (u % BINS) as real) == RealMod(recovered, k.Range())
       <==> index % n == (u / BINS) % n
  {
    SameZoneValue(k.Range(), n, index, u / BINS, (u % BINS) as real);
    assert ZoneValue(k.Range(), n, u / BINS, (u % BINS) as real) == RealMod(recovered, k.Range()) by {
      OwnZoneValue(k, n, u);
    }
  }

  // --- latitude -----------------------------------------------------------------

  /** Zone steps between the two transmitted latitudes; 0 when they are close. */
  function LatSlip(k: Kind, latE: real, latO: real): int {
    Slip(60, 59, Unreduced(k, latE, 60), Unreduced(k, latO, 59))
  }

  lemma RawLatRecovers(k: Kind, odd: bool, latE: real, latO: real, e: Report, o: Report)
    requires e.lat == (Unreduced(k, latE, 60) % BINS) as real
    requires o.lat == (Unreduced(k, latO, 59) % BINS) as real
    ensures RawLat(k, odd, e, o) == RealMod(RecoveredLat(k, odd, if odd then latO else latE), k.Range())
       <==> LatSlip(k, latE, latO) % LatZones(odd) == 0
  {
    var uE, uO := Unreduced(k, latE, 60), Unreduced(k, latO, 59);
    IndexOnIntegers(59, uE % BINS, 60, uO % BINS);
    ZoneRecovery(60, 59, uE, uO);
    var j := Rounded(59 * (uE % BINS) - 60 * (uO % BINS));
    ZoneValueRecovers(k, if odd then latO else latE, LatZones(odd), j);
  }

  lemma TransmittedLat(k: Kind, odd: bool, lat: real, lon: real, t: int)
    ensures Transmit(k, odd, lat, lon, t).lat == (Unreduced(k, lat, LatZones(odd)) % BINS) as real
  {
    FieldIsUnreduced(k, lat, LatZones(odd));
  }

  lemma AirLatInverts(r: real, x: real)
    requires -90.0 <= r <= 90.0 && 0.0 <= x < 360.0
    ensures AirLat(x) == r <==> x == RealMod(r, 360.0)
  {
    if r >= 0.0 {
      RealModUnique(r, 360.0, 0, r);
    } else {
      RealModUnique(r, 360.0, -1, r + 360.0);
    }
  }

  /** Airborne latitude, exactly: each of the two decoded latitudes is the one its
      report was sent with if and only if the slip is a multiple of that report's zone
      count, and both are if and only if the slip is zero. */
  lemma AirLatitudeExact(latE: real, lonE: real, tE: int, latO: real, lonO: real, tO: int)
    requires -90.0 <= latE <= 90.0 && -90.0 <= latO <= 90.0
    ensures var e, o := Transmit(Airborne, false, latE, lonE, tE), Transmit(Airborne, true, latO, lonO, tO);
            var slip := LatSlip(Airborne, latE, latO);
            var goodE := AirLat(RawLat(Airborne, false, e, o)) == RecoveredLat(Airborne, false, latE);
            var goodO := AirLat(RawLat(Airborne, true, e, o)) == RecoveredLat(Airborne, true, latO);
            && (goodE <==> slip % 60 == 0)
            && (goodO <==> slip % 59 == 0)
            && (goodE && goodO <==> slip == 0)
  {
    AirLatitudeOne(false, latE, lonE, tE, latO, lonO, tO);
    AirLatitudeOne(true, latE, lonE, tE, latO, lonO, tO);
    BothMultiples(latE, latO);
  }

  lemma BothMultiples(latE: real, latO: real)
    requires -90.0 <= latE <= 90.0 && -90.0 <= latO <= 90.0
    ensures var slip := LatSlip(Airborne, latE, latO);
            slip % 60 == 0 && slip % 59 == 0 <==> slip == 0
  {
    LatSlipBound(latE, latO);
    CommonMultiple(LatSlip(Airborne, latE, latO));
  }

  lemma AirLatitudeOne(odd: bool, latE: real, lonE: real, tE: int, latO: real, lonO: real, tO: int)
    requires -90.0 <= latE <= 90.0 && -90.0 <= latO <= 90.0
    ensures var e, o := Transmit(Airborne, false, latE, lonE, tE), Transmit(Airborne, true, latO, lonO, tO);
            AirLat(RawLat(Airborne, odd, e, o)) == RecoveredLat(Airborne, odd, if odd then latO else latE)
            <==> LatSlip(Airborne, latE, latO) % LatZones(odd) == 0
  {
    var e, o := Transmit(Airborne, false, latE, lonE, tE), Transmit(Airborne, true, latO, lonO, tO);
    TransmittedLat(Airborne, false, latE, lonE, tE);
    TransmittedLat(Airborne, true, latO, lonO, tO);
    RawLatRecovers(Airborne, odd, latE, latO, e, o);
    RecoveredLatInRange(Airborne, odd, if odd then latO else latE);
    RawLatRange(Airborne, odd, e, o);
    AirLatInverts(RecoveredLat(Airborne, odd, if odd then latO else latE), RawLat(Airborne, odd, e, o));
  }

  lemma CommonMultiple(s: int)
    requires -3540 < s < 3540
    ensures s % 60 == 0 && s % 59 == 0 <==> s == 0
  {
    if s % 60 == 0 && s % 59 == 0 {
      assert s / 60 == 59 * (s / 59 - s / 60);
    }
  }

  lemma LatSlipBound(latE: real, latO: real)
    requires -90.0 <= latE <= 90.0 && -90.0 <= latO <= 90.0
    ensures -1771 <= LatSlip(Airborne, latE, latO) <= 1771
  {
    var uE, uO := Unreduced(Airborne, latE, 60), Unreduced(Airborne, latO, 59);
    EvenBound(latE, uE);
    OddBound(latO, uO);
  }

  lemma EvenBound(lat: real, u: int)
    requires -90.0 <= lat <= 90.0 && u == (131072.0 * (lat / Width(60)) + 0.5).Floor
    ensures -1966080 <= u <= 1966080
  {
    assert Width(60) == 6.0;
  }

  lemma OddBound(lat: real, u: int)
    requires -90.0 <= lat <= 90.0 && u == (131072.0 * (lat / Width(59)) + 0.5).Floor
    ensures -1933312 <= u <= 1933312
  {
    assert Width(59) == 360.0 / 59.0;
  }

  /** A bound on movement that keeps the slip at zero: 0.0508 degrees of latitude
      between two airborne reports, a quarter of that on the surface. */
  lemma LatMovement(k: Kind, latE: real, latO: real)
    requires Abs(latE - latO) <= if k.Airborne? then 0.0508 else 0.0127
    ensures LatSlip(k, latE, latO) == 0
  {
    var s := k.Scale() as real;
    assert Width(60) == 6.0 && Width(59) == 360.0 / 59.0;
    LatMovementScaled(s, latE, latO, Unreduced(k, latE, 60), Unreduced(k, latO, 59));
    SlipWindow(60, 59, Unreduced(k, latE, 60), Unreduced(k, latO, 59));
  }

  lemma LatMovementScaled(s: real, latE: real, latO: real, uE: int, uO: int)
    requires s == 131072.0 || s == 524288.0
    requires s * Abs(latE - latO) <= 131072.0 * 0.0508
    requires uE == (s * (latE / 6.0) + 0.5).Floor && uO == (s * (latO / (360.0 / 59.0)) + 0.5).Floor
    ensures -65536 <= 59 * uE - 60 * uO < 65536
  {
    var a, b := s * (latE / 6.0), s * (latO / (360.0 / 59.0));
    assert 59.0 * a - 60.0 * b == s * (latE - latO) * 59.0 / 6.0;
    assert a - 0.5 <= uE as real <= a + 0.5 && b - 0.5 <= uO as real <= b + 0.5;
  }

  // --- longitude --------------------------------------------------------------

  /** Zone steps between the two transmitted longitudes where nl >= 2 zones exist. */
  function LonSlip(k: Kind, nl: int, lonE: real, lonO: real): int
    requires nl >= 2
  {
    Slip(nl, nl - 1, Unreduced(k, lonE, nl), Unreduced(k, lonO, nl - 1))
  }

  /** Near the poles there is one zone and nothing to align. */
  predicate LonAligned(k: Kind, nl: int, odd: bool, lonE: real, lonO: real)
    requires 1 <= nl
  {
    nl == 1 || LonSlip(k, nl, lonE, lonO) % (if odd then nl - 1 else nl) == 0
  }

  function ZonesAt(nl: int, odd: bool): (n: int)
    requires 1 <= nl <= 59
    ensures 1 <= n <= 59
  {
    if odd && nl > 1 then nl - 1 else nl
  }

  lemma RawLonRecovers(k: Kind, nl: int, odd: bool, lat: real, lonE: real, lonO: real, e: Report, o: Report)
    requires 1 <= nl <= 59 && nl == NL(lat)
    requires e.lon == (Unreduced(k, lonE, ZonesAt(nl, false)) % BINS) as real
    requires o.lon == (Unreduced(k, lonO, ZonesAt(nl, true)) % BINS) as real
    ensures RawLon(k, lat, nl, odd, e, o) == RealMod(Recovered(k, if odd then lonO else lonE, ZonesAt(nl, odd)), k.Range())
       <==> LonAligned(k, nl, odd, lonE, lonO)
  {
    var uE, uO := Unreduced(k, lonE, ZonesAt(nl, false)), Unreduced(k, lonO, ZonesAt(nl, true));
    IndexOnIntegers(nl - 1, uE % BINS, nl, uO % BINS);
    var m := Rounded((nl - 1) * (uE % BINS) - nl * (uO % BINS));
    if nl >= 2 {
      ZoneRecovery(nl, nl - 1, uE, uO);
    }
    ZoneValueRecovers(k, if odd then lonO else lonE, ZonesAt(nl, odd), m);
  }

  lemma TransmittedLon(k: Kind, odd: bool, lat: real, lon: real, t: int)
    ensures Transmit(k, odd, lat, lon, t).lon
         == (Unreduced(k, lon, ZonesAt(NL(RecoveredLat(k, odd, lat)), odd)) % BINS) as real
  {
    FieldIsUnreduced(k, lon, EncodedLonZones(k, odd, lat));
  }

  /** Less than about half a zone of the even-odd difference apart, on the circle. */
  predicate LonNear(k: Kind, nl: int, lonE: real, lonO: real, turn: int) {
    nl >= 2 ==>
      Abs(lonE - lonO - 360.0 * turn as real) * (k.Scale() * (nl * (nl - 1))) as real <= 360.0 * (65536 - nl) as real
  }

  /** A bound on movement in longitude that keeps both longitudes aligned. The reports
      may lie on either side of the antimeridian (turn not zero). */
  lemma LonMovement(k: Kind, nl: int, odd: bool, lonE: real, lonO: real, turn: int)
    requires 1 <= nl <= 59 && LonNear(k, nl, lonE, lonO, turn)
    ensures LonAligned(k, nl, odd, lonE, lonO)
  {
    if nl >= 2 {
      LonSlipWholeTurns(k.Scale(), nl, lonE, lonO, turn, if k.Airborne? then turn else 4 * turn,
                        Unreduced(k, lonE, nl), Unreduced(k, lonO, nl - 1));
    }
  }

  lemma LonSlipWholeTurns(s: int, nl: int, lonE: real, lonO: real, turn: int, q: int, uE: int, uO: int)
    requires nl >= 2 && s > 0 && s * turn == BINS * q
    requires Abs(lonE - lonO - 360.0 * turn as real) * (s * (nl * (nl - 1))) as real <= 360.0 * (65536 - nl) as real
    requires uE == (s as real * (lonE / Width(nl)) + 0.5).Floor
    requires uO == (s as real * (lonO / Width(nl - 1)) + 0.5).Floor
    ensures Slip(nl, nl - 1, uE, uO) % nl == 0 && Slip(nl, nl - 1, uE, uO) % (nl - 1) == 0
  {
    LonMovementScaled(s, nl, lonE, lonO, turn, uE, uO);
    MultipleSlip(s, nl, turn, q, Slip(nl, nl - 1, uE, uO), (nl - 1) * uE - nl * uO);
  }

  lemma MultipleSlip(s: int, n: int, turn: int, q: int, slip: int, diff: int)
    requires n >= 2 && s * turn == BINS * q && slip == Rounded(diff)
    requires -65536 <= diff - s * (n * (n - 1)) * turn < 65536
    ensures slip % n == 0 && slip % (n - 1) == 0
  {
    WholeTurns(s, n, n - 1, turn, q, diff);
    ModAddMultiple(0, n, (n - 1) * q);
    ModAddMultiple(0, n - 1, n * q);
  }

  lemma WholeTurns(s: int, n0: int, n1: int, turn: int, q: int, diff: int)
    requires s * turn == BINS * q
    requires -65536 <= diff - s * (n0 * n1) * turn < 65536
    ensures Rounded(diff) == n0 * (n1 * q) == n1 * (n0 * q)
  {
    assert s * (n0 * n1) * turn == (s * turn) * (n0 * n1);
    assert (BINS * q) * (n0 * n1) == BINS * (n0 * (n1 * q));
    RoundedNear(diff, n0 * (n1 * q));
    assert n0 * (n1 * q) == n1 * (n0 * q);
  }

  lemma RoundedNear(diff: int, z: int)
    requires -65536 <= diff - BINS * z < 65536
    ensures Rounded(diff) == z
  {
  }

  lemma LonMovementScaled(s: int, n0: int, lonE: real, lonO: real, turn: int, uE: int, uO: int)
    requires s > 0 && n0 >= 2
    requires Abs(lonE - lonO - 360.0 * turn as real) * (s * (n0 * (n0 - 1))) as real <= 360.0 * (65536 - n0) as real
    requires uE == (s as real * (lonE / Width(n0)) + 0.5).Floor
    requires uO == (s as real * (lonO / Width(n0 - 1)) + 0.5).Floor
    ensures -65536 <= (n0 - 1) * uE - n0 * uO - s * (n0 * (n0 - 1)) * turn < 65536
  {
    var n1 := n0 - 1;
    var c := s * (n0 * n1);
    HalfStep(lonE, s, n0, n1, c, uE);
    assert s * (n1 * n0) == c;
    HalfStep(lonO, s, n1, n0, c, uO);
    GapBound(c, lonE, lonO, turn, (65536 - n0) as real);
    AddErrors(n0, n1 * uE, n0 * uO, c * turn, c as real * (lonE / 360.0), c as real * (lonO / 360.0));
  }

  lemma HalfStep(x: real, s: int, n: int, m: int, c: int, u: int)
    requires n >= 1 && m >= 0 && c == s * (n * m)
    requires u == (s as real * (x / Width(n)) + 0.5).Floor
    ensures -(0.5 * m as real) <= (m * u) as real - c as real * (x / 360.0) <= 0.5 * m as real
  {
    LonScale(x, s, n, m);
    RoundedMultiple(m, s as real * (x / Width(n)), u);
  }

  lemma GapBound(c: int, x: real, y: real, turn: int, b: real)
    requires c >= 0 && Abs(x - y - 360.0 * turn as real) * c as real <= 360.0 * b
    ensures -b <= c as real * (x / 360.0) - c as real * (y / 360.0) - (c * turn) as real <= b
  {
    CentredDifference(c as real, x, y, turn as real);
    AbsScale(c as real, x - y - 360.0 * turn as real, b);
    CastProduct(c, turn);
  }

  lemma AddErrors(n0: int, a: int, b: int, t: int, x: real, y: real)
    requires -(0.5 * (n0 - 1) as real) <= a as real - x <= 0.5 * (n0 - 1) as real
    requires -(0.5 * n0 as real) <= b as real - y <= 0.5 * n0 as real
    requires -((65536 - n0) as real) <= x - y - t as real <= (65536 - n0) as real
    ensures -65536 <= a - b - t < 65536
  {
    assert -65536.0 < (a - b - t) as real < 65536.0;
  }

  lemma AbsScale(c: real, d: real, b: real)
    requires c >= 0.0 && Abs(d) * c <= 360.0 * b
    ensures -b <= c * (d / 360.0) <= b
  {
    assert c * (d / 360.0) == d * c / 360.0;
    if d < 0.0 {
      assert d * c == -(Abs(d) * c);
    } else {
      assert d * c >= 0.0;
    }
  }

  lemma CentredDifference(c: real, x: real, y: real, t: real)
    ensures c * (x / 360.0) - c * (y / 360.0) - c * t == c * ((x - y - 360.0 * t) / 360.0)
  {
    assert (x - y - 360.0 * t) / 360.0 == x / 360.0 - y / 360.0 - t;
  }

  lemma RoundedMultiple(n: int, a: real, u: int)
    requires n >= 0 && u == (a + 0.5).Floor
    ensures -(0.5 * n as real) <= (n * u) as real - n as real * a <= 0.5 * n as real
  {
    var e := u as real - a;
    assert n as real * u as real - n as real * a == n as real * e;
    NonNegScale(n as real, e);
    CastProduct(n, u);
  }

  lemma NonNegScale(n: real, e: real)
    requires n >= 0.0 && -0.5 <= e <= 0.5
    ensures -(0.5 * n) <= n * e <= 0.5 * n
  {
  }

  lemma LonScale(x: real, s: int, n: int, m: int)
    requires n >= 1
    ensures m as real * (s as real * (x / Width(n))) == (s * (n * m)) as real * (x / 360.0)
  {
    var d := n as real;
    assert x / (360.0 / d) == d * (x / 360.0);
    CastProduct(n, m);
    CastProduct(s, n * m);
  }
}
