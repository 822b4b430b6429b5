/** Compact Position Reporting as a transponder performs it (sections A.1.7.3 and
    A.1.7.4 of Appendix A to RTCA DO-260B), and the zone arithmetic that a decoder
    inverts. Times, raw fields and positions are exact: int and real. */
module CprEncoding {
  import opened Basics
  import opened NlTable

  /** 17 bits of each coordinate are transmitted. */
  const BINS := 131072

  datatype Kind = Airborne | Surface {
    /** 2^Nb: surface positions are computed with 19 bits, of which 17 are sent. */
    function Scale(): (s: int)
      ensures s == BINS || s == 4 * BINS
    {
      if Airborne? then 131072 else 524288
    }

    /** The span of latitude or longitude that 17 bits of every zone cover. */
    function Range(): (r: real)
      ensures r * Scale() as real == 360.0 * 131072.0
    {
      if Airborne? then 360.0 else 90.0
    }
  }

  function RealMod(x: real, y: real): real
    requires y > 0.0
  {
    x - y * (x / y).Floor as real
  }

  /** Zone width when n zones cover the circle. */
  function Width(n: int): (d: real)
    requires n >= 1
    ensures d > 0.0
  {
    360.0 / n as real
  }

  /** Latitude zones of an even (0) or odd (1) report. */
  function LatZones(odd: bool): int {
    if odd then 59 else 60
  }

  /** Longitude zones of an even or odd report at a latitude, never below one. */
  function LonZones(lat: real, odd: bool): (n: int)
    ensures 1 <= n <= 59
  {
    var n := NL(lat) - if odd then 1 else 0;
    if n < 1 then 1 else n
  }

  /** floor(2^Nb * MOD(x, d) / d + 1/2) */
  function FieldBits(k: Kind, x: real, d: real): int
    requires d > 0.0
  {
    (k.Scale() as real * (RealMod(x, d) / d) + 0.5).Floor
  }

  /** The encoding before reduction to 17 bits, as one integer over all zones. */
  function Unreduced(k: Kind, x: real, n: int): int
    requires n >= 1
  {
    (k.Scale() as real * (x / Width(n)) + 0.5).Floor
  }

  /** The coordinate that the untruncated field stands for. */
  function Recovered(k: Kind, x: real, n: int): real
    requires n >= 1
  {
    Width(n) * (Unreduced(k, x, n) as real / k.Scale() as real)
  }

  function RecoveredLat(k: Kind, odd: bool, lat: real): real {
    Recovered(k, lat, LatZones(odd))
  }

  /** The longitude zones an encoder uses follow from the latitude it encoded. */
  function EncodedLonZones(k: Kind, odd: bool, lat: real): (n: int)
    ensures 1 <= n <= 59
  {
    LonZones(RecoveredLat(k, odd, lat), odd)
  }

  function RecoveredLon(k: Kind, odd: bool, lat: real, lon: real): real {
    Recovered(k, lon, EncodedLonZones(k, odd, lat))
  }

  datatype Field = Field(yz: int, xz: int)

  function Encode(k: Kind, odd: bool, lat: real, lon: real): (f: Field)
    ensures 0 <= f.yz < BINS && 0 <= f.xz < BINS
  {
    var d := Width(LatZones(odd));
    var e := Width(EncodedLonZones(k, odd, lat));
    Field(FieldBits(k, lat, d) % BINS, FieldBits(k, lon, e) % BINS)
  }

  lemma FloorShift(x: real, k: int)
    ensures (x - k as real).Floor == x.Floor - k
  {
  }

  /** The transmitted field is the unreduced encoding modulo 2^17, and Recovered is the
      standard's Dlat * (YZ / 2^Nb + floor(lat / Dlat)). */
  lemma FieldIsUnreduced(k: Kind, x: real, n: int)
    requires n >= 1
    ensures FieldBits(k, x, Width(n)) % BINS == Unreduced(k, x, n) % BINS
    ensures Recovered(k, x, n)
         == Width(n) * (FieldBits(k, x, Width(n)) as real / k.Scale() as real + (x / Width(n)).Floor as real)
  {
    var d, s := Width(n), k.Scale();
    var q, u := (x / d).Floor, Unreduced(k, x, n);
    FieldOffset(x, d, s, q, u);
    assert FieldBits(k, x, d) == u - s * q;
    ModShift(u - s * q, if k.Airborne? then q else 4 * q);
  }

  lemma FieldOffset(x: real, d: real, s: int, q: int, u: int)
    requires d > 0.0 && s > 0 && q == (x / d).Floor && u == (s as real * (x / d) + 0.5).Floor
    ensures (s as real * (RealMod(x, d) / d) + 0.5).Floor == u - s * q
    ensures (u - s * q) as real / s as real + q as real == u as real / s as real
  {
    var y := x / d;
    DivideOut(x, d, q as real);
    assert RealMod(x, d) / d == y - q as real;
    var whole := s * q;
    assert s as real * (y - q as real) + 0.5 == (s as real * y + 0.5) - whole as real;
    FloorShift(s as real * y + 0.5, whole);
    DivideOut(u as real, s as real, q as real);
  }

  lemma DivideOut(x: real, d: real, q: real)
    requires d > 0.0
    ensures (x - d * q) / d == x / d - q
  {
  }

  lemma ModShift(b: int, q: int)
    ensures (b + BINS * q) % BINS == b % BINS
  {
  }

  /** Half-quantum accuracy of the encoding. */
  lemma RecoveredWithinHalfQuantum(k: Kind, x: real, n: int)
    requires n >= 1
    ensures Abs(Recovered(k, x, n) - x) <= Width(n) / (2.0 * k.Scale() as real)
  {
    QuantumBound(x, Width(n), k.Scale() as real, Unreduced(k, x, n));
  }

  lemma QuantumBound(x: real, d: real, s: real, u: int)
    requires d > 0.0 && s > 0.0 && u == (s * (x / d) + 0.5).Floor
    ensures Abs(d * (u as real / s) - x) <= d / (2.0 * s)
  {
    var y, w := x / d, u as real / s;
    RoundingError(y, s, u as real);
    ScaleBound(d, w - y, 1.0 / (2.0 * s));
    assert d * (w - y) == d * w - x;
    assert d * (1.0 / (2.0 * s)) == d / (2.0 * s);
  }

  lemma RoundingError(y: real, s: real, u: real)
    requires s > 0.0
    requires s * y - 0.5 <= u <= s * y + 0.5
    ensures -(1.0 / (2.0 * s)) <= u / s - y <= 1.0 / (2.0 * s)
  {
    assert u / s - y == (u - s * y) / s;
    assert 0.5 / s == 1.0 / (2.0 * s);
    DivideBound(u - s * y, s);
  }

  lemma DivideBound(e: real, s: real)
    requires s > 0.0 && -0.5 <= e <= 0.5
    ensures -(0.5 / s) <= e / s <= 0.5 / s
  {
  }

  lemma ScaleBound(d: real, e: real, b: real)
    requires d > 0.0 && -b <= e <= b
    ensures -(d * b) <= d * e <= d * b
  {
  }

  /** A recoverable latitude stays in range: both poles are exact multiples of a quantum. */
  lemma RecoveredLatInRange(k: Kind, odd: bool, lat: real)
    requires -90.0 <= lat <= 90.0
    ensures -90.0 <= RecoveredLat(k, odd, lat) <= 90.0
  {
    assert Width(60) == 6.0 && Width(59) == 360.0 / 59.0;
    match (k, odd)
    case (Airborne, false) => assert -1966080 <= Unreduced(k, lat, 60) <= 1966080;
    case (Airborne, true) => assert -1933312 <= Unreduced(k, lat, 59) <= 1933312;
    case (Surface, false) => assert -7864320 <= Unreduced(k, lat, 60) <= 7864320;
    case (Surface, true) => assert -7733248 <= Unreduced(k, lat, 59) <= 7733248;
  }

  // --- zone indices -------------------------------------------------------

  /** floor(a / 2^17 + 1/2) */
  function Rounded(a: int): int {
    (a + 65536) / BINS
  }

  lemma RoundedIsFloor(a: int)
    ensures (a as real / 131072.0 + 0.5).Floor == Rounded(a)
  {
    var r := Rounded(a);
    assert BINS * r <= a + 65536 < BINS * r + BINS;
    assert r as real <= a as real / 131072.0 + 0.5 < r as real + 1.0;
  }

  /** How many zone steps the two unreduced reports are apart. Zero is the case a
      decoder hopes for: the reports were close together. */
  function Slip(n0: int, n1: int, u0: int, u1: int): int {
    Rounded(n1 * u0 - n0 * u1)
  }

  lemma SlipWindow(n0: int, n1: int, u0: int, u1: int)
    ensures Slip(n0, n1, u0, u1) == 0 <==> -65536 <= n1 * u0 - n0 * u1 < 65536
  {
  }

  lemma ModUnique(a: int, n: int, q: int, r: int)
    requires n >= 1 && a == n * q + r && 0 <= r < n
    ensures a % n == r && a / n == q
  {
    var q', r' := a / n, a % n;
    assert n * (q - q') == r' - r;
    MulAtLeast(n, q - q');
  }

  lemma MulAtLeast(n: int, t: int)
    requires n >= 1
    ensures t >= 1 ==> n * t >= n
    ensures t <= -1 ==> n * t <= -n
  {
  }

  lemma ModAddMultiple(a: int, n: int, m: int)
    requires n >= 1
    ensures (a + n * m) % n == a % n
  {
    assert a + n * m == n * (a / n + m) + a % n;
    ModUnique(a + n * m, n, a / n + m, a % n);
  }

  lemma ModSumKeeps(s: int, k: int, n: int)
    requires n >= 1
    ensures (s + k) % n == k % n <==> s % n == 0
  {
    var r := s % n + k % n;
    assert s + k == r + n * (s / n + k / n);
    ModAddMultiple(r, n, s / n + k / n);
    if r >= n {
      ModUnique(r, n, 1, r - n);
    } else {
      ModUnique(r, n, 0, r);
    }
  }

  /** The zone index computed from the 17-bit fields, reduced to either zone count,
      is that report's own zone number displaced by the slip. It is therefore right
      exactly when the slip is a multiple of that zone count. */
  lemma ZoneRecovery(n0: int, n1: int, u0: int, u1: int)
    requires n1 >= 1 && n0 == n1 + 1
    ensures var index := Rounded(n1 * (u0 % BINS) - n0 * (u1 % BINS));
            var slip := Slip(n0, n1, u0, u1);
            && index == slip + n0 * (u1 / BINS) - n1 * (u0 / BINS)
            && (index % n0 == (u0 / BINS) % n0 <==> slip % n0 == 0)
            && (index % n1 == (u1 / BINS) % n1 <==> slip % n1 == 0)
  {
    var k0, k1, x0, x1 := u0 / BINS, u1 / BINS, u0 % BINS, u1 % BINS;
    var steps := n1 * k0 - n0 * k1;
    var index := Rounded(n1 * x0 - n0 * x1);
    var slip := Slip(n0, n1, u0, u1);
    Distribute(n1, k0, x0);
    Distribute(n0, k1, x1);
    assert n1 * u0 - n0 * u1 == BINS * steps + (n1 * x0 - n0 * x1);
    assert slip == index + steps;
    SplitSteps(n0, n1, k0, k1);
    ModAddMultiple(slip + k0, n0, k1 - k0);
    ModAddMultiple(slip + k1, n1, k1 - k0);
    ModSumKeeps(slip, k0, n0);
    ModSumKeeps(slip, k1, n1);
  }

  lemma SplitSteps(n0: int, n1: int, k0: int, k1: int)
    requires n0 == n1 + 1
    ensures n0 * k1 - n1 * k0 == k0 + n0 * (k1 - k0)
    ensures n0 * k1 - n1 * k0 == k1 + n1 * (k1 - k0)
  {
  }

  lemma Distribute(n: int, k: int, x: int)
    ensures n * (BINS * k + x) == BINS * (n * k) + n * x
  {
  }
}
