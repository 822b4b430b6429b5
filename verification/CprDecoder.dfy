/** The position decoder of lib/tracker/cpr.go: what a pair of reports decodes to, as
    functions, and the CprLocation object that computes it field by field. */
module CprDecoder {
  import opened Basics
  import opened NlTable
  import opened CprEncoding

  /** A received report: raw 17-bit fields and the time of reception in nanoseconds. */
  datatype Report = Report(lat: real, lon: real, time: int)

  datatype Position = Position(latitude: real, longitude: real, cprDecodedTS: int, onGround: bool)

  datatype Error =
    | OutOf17Bits
    | NeedBothFrames
    | NoReference
    | ZoneMismatch
    | TooFarApart
    | LatitudeOutOfRange

  datatype Result<T> = Ok(value: T) | Err(error: Error)

  /** decode returns (nil, nil) when it has only one of the two reports. */
  datatype Outcome = Incomplete | Decoded(result: Result<Position>)

  const MAX17BITS := 131071.0

  predicate InRaw(lat: real, lon: real) {
    0.0 <= lat <= MAX17BITS && 0.0 <= lon <= MAX17BITS
  }

  // --- what a pair decodes to ---------------------------------------------

  /** Go's math.Mod on integral arguments: the sign follows the dividend. */
  function TruncMod(a: int, b: int): int
    requires b > 0
  {
    if a >= 0 then a % b else -((-a) % b)
  }

  /** cprModFunction: math.Mod made non-negative. */
  function CprMod(a: int, b: int): (r: int)
    requires b > 0
    ensures r == a % b
  {
    var res := TruncMod(a, b);
    NegatedMod(a, b);
    if res < 0 then res + b else res
  }

  lemma NegatedMod(a: int, b: int)
    requires b > 0
    ensures var r := (-a) % b; a % b == if r == 0 then 0 else b - r
  {
    var q, r := (-a) / b, (-a) % b;
    assert a == b * (-q) - r;
    if r == 0 {
      ModUnique(a, b, -q, 0);
    } else {
      assert a == b * (-q - 1) + (b - r);
      ModUnique(a, b, -q - 1, b - r);
    }
  }

  /** floor((n1 * x0 - n0 * x1) / 2^17 + 1/2): the latitude index j and longitude index m. */
  function ZoneIndex(n1: int, x0: real, n0: int, x1: real): int {
    ((n1 as real * x0 - n0 as real * x1) / 131072.0 + 0.5).Floor
  }

  function ZoneValue(range: real, n: int, index: int, raw: real): real
    requires n >= 1
  {
    range / n as real * (CprMod(index, n) as real + raw / 131072.0)
  }

  /** Latitude in zone 0..n-1 of the hemisphere span that range covers. */
  function RawLat(k: Kind, odd: bool, even: Report, oddR: Report): real {
    var j := ZoneIndex(59, even.lat, 60, oddR.lat);
    ZoneValue(k.Range(), LatZones(odd), j, if odd then oddR.lat else even.lat)
  }

  function AirLat(r: real): real {
    if r >= 270.0 then r - 360.0 else r
  }

  /** surfacePosQuadrantTwiddle on one latitude. */
  function SurfaceLat(r: real, refLat: real): real {
    if r == 0.0 then
      if refLat < -45.0 then -90.0 else if refLat > 45.0 then 90.0 else r
    else if r - refLat > 45.0 then r - 90.0
    else r
  }

  function RawLon(k: Kind, lat: real, nl: int, odd: bool, even: Report, oddR: Report): real {
    var m := ZoneIndex(nl - 1, even.lon, nl, oddR.lon);
    ZoneValue(k.Range(), LonZones(lat, odd), m, if odd then oddR.lon else even.lon)
  }

  function AirLon(x: real): real {
    if x > 180.0 then x - 360.0 else x
  }

  /** surfaceLongitudeTwiddle followed by normaliseLatLon. */
  function SurfaceLon(x: real, refLon: real): real {
    AirLon(WrapLon(NearestQuadrant(x, refLon)))
  }

  function NearestQuadrant(x: real, refLon: real): real {
    x + ((refLon - x + 45.0) / 90.0).Floor as real * 90.0
  }

  function WrapLon(x: real): real {
    x - ((x + 180.0) / 360.0).Floor as real * 360.0
  }

  /** time.Duration.Milliseconds truncates towards zero. */
  function Milliseconds(d: int): int {
    if d >= 0 then d / 1_000_000 else -((-d) / 1_000_000)
  }

  predicate CloseInTime(even: Report, odd: Report) {
    var ms := Milliseconds(odd.time - even.time);
    (if ms < 0 then -ms else ms) <= 10_000
  }

  /** The odd report is used exactly when it is strictly the earlier one. */
  predicate UsesOdd(even: Report, odd: Report) {
    odd.time < even.time
  }

  /** The steps common to both decodes, once the two latitudes are known. */
  function Fix(k: Kind, lat0: real, lat1: real, refLon: real, even: Report, odd: Report): Result<Position> {
    if NL(lat0) != NL(lat1) then Err(ZoneMismatch)
    else if !CloseInTime(even, odd) then Err(TooFarApart)
    else
      var useOdd := UsesOdd(even, odd);
      var lat := if useOdd then lat1 else lat0;
      var x := RawLon(k, lat, NL(lat0), useOdd, even, odd);
      if lat < -90.0 || lat > 90.0 then Err(LatitudeOutOfRange)
      else Ok(Position(lat, if k.Airborne? then AirLon(x) else SurfaceLon(x, refLon),
                       if useOdd then odd.time else even.time, k.Surface?))
  }

  function AirFix(even: Report, odd: Report): Result<Position> {
    Fix(Airborne, AirLat(RawLat(Airborne, false, even, odd)), AirLat(RawLat(Airborne, true, even, odd)),
        0.0, even, odd)
  }

  function SurfaceFix(even: Report, odd: Report, refLat: real, refLon: real): Result<Position> {
    if refLat == 0.0 && refLon == 0.0 then Err(NoReference)
    else
      var lat0 := SurfaceLat(RawLat(Surface, false, even, odd), refLat);
      var lat1 := SurfaceLat(RawLat(Surface, true, even, odd), refLat);
      if lat0 < -90.0 || lat0 > 90.0 || lat1 < -90.0 || lat1 > 90.0 then Err(LatitudeOutOfRange)
      else Fix(Surface, lat0, lat1, refLon, even, odd)
  }

  // --- the state machine around it ----------------------------------------

  /** The two report buffers and the reference position. */
  datatype Pair = Pair(even: Option<Report>, odd: Option<Report>)

  datatype Event =
    | SetEven(report: Report)
    | SetOdd(report: Report)
    | Zero
    | Decode(onGround: bool, refLat: real, refLon: real)

  function StoreEven(p: Pair, r: Report): Pair {
    if InRaw(r.lat, r.lon) then p.(even := Some(r)) else p
  }

  function StoreOdd(p: Pair, r: Report): Pair {
    if InRaw(r.lat, r.lon) then p.(odd := Some(r)) else p
  }

  const CLEARED := Pair(None, None)

  function DecodeOutcome(p: Pair, onGround: bool, refLat: real, refLon: real): Outcome {
    if p.even.None? || p.odd.None? then Incomplete
    else if onGround then Decoded(SurfaceFix(p.even.value, p.odd.value, refLat, refLon))
    else Decoded(AirFix(p.even.value, p.odd.value))
  }

  /** A surface decode that has no reference position gives up before clearing. */
  function DecodeState(p: Pair, onGround: bool, refLat: real, refLon: real): Pair {
    if p.even.None? || p.odd.None? || (onGround && refLat == 0.0 && refLon == 0.0) then p
    else CLEARED
  }

  class CprLocation {
    var time0: int
    var time1: int
    var airDLat0: real
    var airDLat1: real
    var globalSurfaceRange: real
    var oddLon: real
    var oddLat: real
    var evenLat: real
    var evenLon: real
    var rlat0: real
    var rlat1: real
    var refLon: real
    var refLat: real
    var latitudeIndex: int
    var nl0: int
    var nl1: int
    var evenDecode: bool
    var oddDecode: bool
    var evenFrame: bool
    var oddFrame: bool

    function EvenReport(): Report
      reads this
    {
      Report(evenLat, evenLon, time0)
    }

    function OddReport(): Report
      reads this
    {
      Report(oddLat, oddLon, time1)
    }

    /** The abstract state. */
    function Buffers(): Pair
      reads this
    {
      Pair(if evenFrame then Some(EvenReport()) else None, if oddFrame then Some(OddReport()) else None)
    }

    constructor ()
      ensures Buffers() == CLEARED && refLat == 0.0 && refLon == 0.0
    {
      evenFrame, oddFrame := false, false;
      refLat, refLon := 0.0, 0.0;
    }

    method CanDecode() returns (r: bool)
      ensures r <==> Buffers().even.Some? && Buffers().odd.Some?
    {
      r := oddFrame && evenFrame;
    }

    method ClearBuffers()
      modifies `evenLat, `evenLon, `oddLat, `oddLon, `rlat0, `rlat1, `time0, `time1, `evenFrame, `oddFrame
      ensures Buffers() == CLEARED
    {
      evenLat, evenLon, oddLat, oddLon := 0.0, 0.0, 0.0, 0.0;
      rlat0, rlat1 := 0.0, 0.0;
      time0, time1 := 0, 0;
      evenFrame, oddFrame := false, false;
    }

    method SetEvenLocation(lat: real, lon: real, t: int) returns (err: Option<Error>)
      modifies `evenLat, `evenLon, `time0, `evenFrame
      ensures err == if InRaw(lat, lon) then None else Some(OutOf17Bits)
      ensures Buffers() == StoreEven(old(Buffers()), Report(lat, lon, t))
    {
      if lat > MAX17BITS || lat < 0.0 || lon > MAX17BITS || lon < 0.0 {
        return Some(OutOf17Bits);
      }
      evenLat, evenLon, time0, evenFrame := lat, lon, t, true;
      return None;
    }

    method SetOddLocation(lat: real, lon: real, t: int) returns (err: Option<Error>)
      modifies `oddLat, `oddLon, `time1, `oddFrame
      ensures err == if InRaw(lat, lon) then None else Some(OutOf17Bits)
      ensures Buffers() == StoreOdd(old(Buffers()), Report(lat, lon, t))
    {
      if lat > MAX17BITS || lat < 0.0 || lon > MAX17BITS || lon < 0.0 {
        return Some(OutOf17Bits);
      }
      oddLat, oddLon, time1, oddFrame := lat, lon, t, true;
      return None;
    }

    method ComputeLatitudeIndex()
      modifies `latitudeIndex
      ensures latitudeIndex == ZoneIndex(59, evenLat, 60, oddLat)
    {
      latitudeIndex := ((59.0 * evenLat - 60.0 * oddLat) / 131072.0 + 0.5).Floor;
    }

    method ComputeAirDLatRLat(ghost k: Kind)
      requires latitudeIndex == ZoneIndex(59, evenLat, 60, oddLat)
      requires globalSurfaceRange == k.Range()
      modifies `airDLat0, `airDLat1, `rlat0, `rlat1
      ensures rlat0 == RawLat(k, false, EvenReport(), OddReport())
      ensures rlat1 == RawLat(k, true, EvenReport(), OddReport())
    {
      airDLat0 := globalSurfaceRange / 60.0;
      airDLat1 := globalSurfaceRange / 59.0;
      rlat0 := airDLat0 * (CprMod(latitudeIndex, 60) as real + evenLat / 131072.0);
      rlat1 := airDLat1 * (CprMod(latitudeIndex, 59) as real + oddLat / 131072.0);
    }

    method ComputeLongitudeZone() returns (err: Option<Error>)
      modifies `nl0, `nl1
      ensures nl0 == NL(rlat0) && nl1 == NL(rlat1)
      ensures err == if nl0 == nl1 then None else Some(ZoneMismatch)
    {
      nl0 := GetNumLongitudeZone(rlat0);
      nl1 := GetNumLongitudeZone(rlat1);
      err := if nl0 != nl1 then Some(ZoneMismatch) else None;
    }

    method CheckFrameTiming() returns (err: Option<Error>)
      ensures err == if CloseInTime(EvenReport(), OddReport()) then None else Some(TooFarApart)
    {
      var tt := Milliseconds(time1 - time0);
      if tt < 0 {
        tt := -tt;
      }
      err := if tt > 10_000 then Some(TooFarApart) else None;
    }

    method ComputeLatLon(ghost k: Kind) returns (latitude: real, longitude: real, ts: int)
      requires nl0 == NL(rlat0) && nl1 == nl0 && globalSurfaceRange == k.Range()
      modifies `oddDecode, `evenDecode
      ensures oddDecode == UsesOdd(EvenReport(), OddReport()) && evenDecode == !oddDecode
      ensures latitude == if oddDecode then rlat1 else rlat0
      ensures ts == if oddDecode then time1 else time0
      ensures longitude == RawLon(k, latitude, nl0, oddDecode, EvenReport(), OddReport())
    {
      if time1 < time0 {
        oddDecode, evenDecode := true, false;
        var ni := LonZones(rlat1, true);
        var m := ZoneIndex(nl1 - 1, evenLon, nl1, oddLon);
        longitude := ZoneValue(globalSurfaceRange, ni, m, oddLon);
        latitude, ts := rlat1, time1;
      } else {
        oddDecode, evenDecode := false, true;
        var ni := LonZones(rlat0, false);
        var m := ZoneIndex(nl0 - 1, evenLon, nl0, oddLon);
        longitude := ZoneValue(globalSurfaceRange, ni, m, evenLon);
        latitude, ts := rlat0, time0;
      }
    }

    method SurfacePosQuadrantTwiddle(ref: real) returns (err: Option<Error>)
      modifies `rlat0, `rlat1
      ensures rlat0 == SurfaceLat(old(rlat0), ref) && rlat1 == SurfaceLat(old(rlat1), ref)
      ensures err == if -90.0 <= rlat0 <= 90.0 && -90.0 <= rlat1 <= 90.0 then None else Some(LatitudeOutOfRange)
    {
      if rlat0 == 0.0 {
        if ref < -45.0 {
          rlat0 := -90.0;
        } else if ref > 45.0 {
          rlat0 := 90.0;
        }
      } else if rlat0 - ref > 45.0 {
        rlat0 := rlat0 - 90.0;
      }
      if rlat1 == 0.0 {
        if ref < -45.0 {
          rlat1 := -90.0;
        } else if ref > 45.0 {
          rlat1 := 90.0;
        }
      } else if rlat1 - ref > 45.0 {
        rlat1 := rlat1 - 90.0;
      }
      if rlat0 < -90.0 || rlat0 > 90.0 || rlat1 < -90.0 || rlat1 > 90.0 {
        return Some(LatitudeOutOfRange);
      }
      return None;
    }

    /** The steps both decodes end with: one longitude zone count, a recent pair, then
        the position of the earlier report. */
    method FixPosition(k: Kind, lon': real) returns (r: Result<Position>)
      requires globalSurfaceRange == k.Range()
      modifies `nl0, `nl1, `oddDecode, `evenDecode
      ensures r == Fix(k, rlat0, rlat1, lon', EvenReport(), OddReport())
    {
      var err := ComputeLongitudeZone();
      if err.Some? {
        return Err(err.value);
      }
      err := CheckFrameTiming();
      if err.Some? {
        return Err(err.value);
      }
      var lat, lon, ts := ComputeLatLon(k);
      if k.Surface? {
        lon := SurfaceLongitudeTwiddle(lon, lon');
      }
      r := NormaliseLatLon(Position(lat, lon, ts, k.Surface?));
    }

    method SurfaceLongitudeTwiddle(lon: real, lon': real) returns (x: real)
      ensures x == WrapLon(NearestQuadrant(lon, lon'))
    {
      x := lon + ((lon' - lon + 45.0) / 90.0).Floor as real * 90.0;
      x := x - ((x + 180.0) / 360.0).Floor as real * 360.0;
    }

    method NormaliseLatLon(p: Position) returns (r: Result<Position>)
      ensures r == if p.latitude < -90.0 || p.latitude > 90.0 then Err(LatitudeOutOfRange)
                   else Ok(p.(longitude := AirLon(p.longitude)))
    {
      var lon := p.longitude;
      if lon > 180.0 {
        lon := lon - 360.0;
      }
      if p.latitude < -90.0 || p.latitude > 90.0 {
        return Err(LatitudeOutOfRange);
      }
      return Ok(p.(longitude := lon));
    }

    /** Both latitudes of an airborne pair; southern values come out as 270 to 360. */
    method AirLatitudes()
      requires globalSurfaceRange == Airborne.Range()
      modifies `latitudeIndex, `airDLat0, `airDLat1, `rlat0, `rlat1
      ensures rlat0 == AirLat(RawLat(Airborne, false, EvenReport(), OddReport()))
      ensures rlat1 == AirLat(RawLat(Airborne, true, EvenReport(), OddReport()))
    {
      ComputeLatitudeIndex();
      ComputeAirDLatRLat(Airborne);
      if rlat0 >= 270.0 {
        rlat0 := rlat0 - 360.0;
      }
      if rlat1 >= 270.0 {
        rlat1 := rlat1 - 360.0;
      }
    }

    method DecodeGlobalAir() returns (r: Result<Position>)
      modifies this
      ensures Buffers() == old(Buffers()) && refLat == old(refLat) && refLon == old(refLon)
      ensures r == if evenFrame && oddFrame then AirFix(EvenReport(), OddReport()) else Err(NeedBothFrames)
    {
      if !(oddFrame && evenFrame) {
        return Err(NeedBothFrames);
      }
      globalSurfaceRange := 360.0;
      AirLatitudes();
      r := FixPosition(Airborne, 0.0);
    }

    /** Both latitudes of a surface pair. */
    method SurfaceLatitudes(ref: real) returns (err: Option<Error>)
      requires globalSurfaceRange == Surface.Range()
      modifies `latitudeIndex, `airDLat0, `airDLat1, `rlat0, `rlat1
      ensures rlat0 == SurfaceLat(RawLat(Surface, false, EvenReport(), OddReport()), ref)
      ensures rlat1 == SurfaceLat(RawLat(Surface, true, EvenReport(), OddReport()), ref)
      ensures err == if -90.0 <= rlat0 <= 90.0 && -90.0 <= rlat1 <= 90.0 then None else Some(LatitudeOutOfRange)
    {
      ComputeLatitudeIndex();
      ComputeAirDLatRLat(Surface);
      err := SurfacePosQuadrantTwiddle(ref);
    }

    method DecodeSurface(lat': real, lon': real) returns (r: Result<Position>)
      modifies this
      ensures Buffers() == old(Buffers()) && refLat == old(refLat) && refLon == old(refLon)
      ensures lat' == 0.0 && lon' == 0.0 ==> r == Err(NoReference)
      ensures !(lat' == 0.0 && lon' == 0.0) ==>
          r == if evenFrame && oddFrame then SurfaceFix(EvenReport(), OddReport(), lat', lon') else Err(NeedBothFrames)
    {
      globalSurfaceRange := 90.0;
      if lat' == 0.0 && lon' == 0.0 {
        return Err(NoReference);
      }
      if !(oddFrame && evenFrame) {
        return Err(NeedBothFrames);
      }
      var err := SurfaceLatitudes(lat');
      if err.Some? {
        return Err(err.value);
      }
      r := FixPosition(Surface, lon');
    }

    method DecodePair(onGround: bool) returns (outcome: Outcome)
      modifies this
      ensures refLat == old(refLat) && refLon == old(refLon)
      ensures outcome == DecodeOutcome(old(Buffers()), onGround, refLat, refLon)
      ensures Buffers() == DecodeState(old(Buffers()), onGround, refLat, refLon)
    {
      var ready := CanDecode();
      if !ready {
        return Incomplete;
      }
      var result;
      if onGround {
        if refLat == 0.0 && refLon == 0.0 {
          return Decoded(Err(NoReference));
        }
        result := DecodeSurface(refLat, refLon);
      } else {
        result := DecodeGlobalAir();
      }
      ClearBuffers();
      return Decoded(result);
    }
  }

  // --- range safety ---------------------------------------------------------

  lemma QuotientRange(n: int, a: int, raw: real)
    requires n >= 1 && 0 <= a < n && 0.0 <= raw <= MAX17BITS
    ensures 0.0 <= (a as real + raw / 131072.0) / n as real < 1.0
  {
    QuotientBelowOne(a as real + raw / 131072.0, n as real);
  }

  lemma QuotientBelowOne(x: real, d: real)
    requires 0.0 <= x < d
    ensures 0.0 <= x / d < 1.0
  {
  }

  /** Any zone value lies in the half-open span of its range. */
  lemma ZoneValueRange(k: Kind, n: int, index: int, raw: real)
    requires n >= 1 && 0.0 <= raw <= MAX17BITS
    ensures 0.0 <= ZoneValue(k.Range(), n, index, raw) < k.Range()
  {
    var a := CprMod(index, n);
    QuotientRange(n, a, raw);
    var x, d := a as real + raw / 131072.0, n as real;
    assert k.Range() / d * x == k.Range() * (x / d);
  }

  lemma RawLatRange(k: Kind, odd: bool, even: Report, oddR: Report)
    requires InRaw(even.lat, even.lon) && InRaw(oddR.lat, oddR.lon)
    ensures 0.0 <= RawLat(k, odd, even, oddR) < k.Range()
  {
    ZoneValueRange(k, LatZones(odd), ZoneIndex(59, even.lat, 60, oddR.lat), if odd then oddR.lat else even.lat);
  }

  /** Zone indices of 17-bit fields are small, so the conversions to int32 are exact. */
  lemma ZoneIndexRange(n1: int, x0: real, n0: int, x1: real)
    requires 0 <= n1 && 0 <= n0 && 0.0 <= x0 <= MAX17BITS && 0.0 <= x1 <= MAX17BITS
    ensures -n0 <= ZoneIndex(n1, x0, n0, x1) <= n1
  {
    var p1, p0 := n1 as real * x0, n0 as real * x1;
    ScaledBelow(n1 as real, x0, p1);
    ScaledBelow(n0 as real, x1, p0);
    IndexOfProducts(n1, p1, n0, p0);
  }

  lemma IndexOfProducts(n1: int, p1: real, n0: int, p0: real)
    requires 0.0 <= p1 <= 131072.0 * n1 as real && 0.0 <= p0 <= 131072.0 * n0 as real
    ensures -n0 <= ((p1 - p0) / 131072.0 + 0.5).Floor <= n1
  {
    assert -(n0 as real) <= (p1 - p0) / 131072.0 <= n1 as real;
  }

  lemma ScaledBelow(n: real, x: real, p: real)
    requires 0.0 <= n && 0.0 <= x <= MAX17BITS && p == n * x
    ensures 0.0 <= p <= 131072.0 * n
  {
  }
}
