/** The number of longitude zones as the standard defines it, by a cosine (section A.1.7.2 of
    Appendix A to RTCA DO-260B), and how far the table of the decoder agrees with it. */
module NlStandard {
  import opened Basics
  import opened NlTable

  // --- the cosine -----------------------------------------------------------------------------

  function Next(a: real, rest: real): real {
    1.0 - a * rest
  }

  /** m terms of 1 - u / (k (k + 1)) (1 - u / ((k + 2) (k + 3)) (...)). */
  function Partial(k: int, m: nat, u: real): real
    requires k >= 1
    decreases m
  {
    if m == 0 then 1.0 else Next(u / (k * (k + 1)) as real, Partial(k + 2, m - 1, u))
  }

  predicate Bracketed(c: real, x: real, m: nat) {
    Partial(1, 2 * m + 1, x * x) <= c <= Partial(1, 2 * m, x * x)
  }

  /** Every two neighbouring partial sums of its series bracket the cosine, everywhere; no other
      function has that property. */
  ghost predicate IsCosine(cos: real -> real) {
    forall x: real, m: nat :: Bracketed(cos(x), x, m)
  }

  predicate IsPi(pi: real) {
    3.14159265358979323846 < pi < 3.14159265358979323847
  }

  // --- the definition ---------------------------------------------------------------------------

  /** n zones fit at latitude a: n times the angle with cosine
      1 - (1 - cos(pi / 30)) / cos(a)^2 is at most a full turn. */
  ghost predicate Fits(cos: real -> real, pi: real, a: real, n: int)
    requires n >= 1
  {
    (1.0 - cos(2.0 * pi / n as real)) * Square(cos(pi * a / 180.0)) >= 1.0 - cos(pi / 30.0)
  }

  function Square(x: real): real {
    x * x
  }

  /** The most zones that fit, from top down to 2. */
  ghost function MostFitting(cos: real -> real, pi: real, a: real, top: int): (n: int)
    requires 2 <= top
    ensures 2 <= n <= top
    ensures 2 < n ==> Fits(cos, pi, a, n)
    ensures forall k :: n < k <= top ==> !Fits(cos, pi, a, k)
  {
    if top == 2 || Fits(cos, pi, a, top) then top else MostFitting(cos, pi, a, top - 1)
  }

  /** 59 zones at the equator, two up to and at 87 degrees, one beyond. */
  ghost function StandardNL(cos: real -> real, pi: real, lat: real): (n: int)
    ensures 1 <= n <= 59
  {
    if Abs(lat) > 87.0 then 1
    else if Abs(lat) == 87.0 then 2
    else MostFitting(cos, pi, Abs(lat), 59)
  }

  // --- bounds that can be computed ------------------------------------------------------------

  function Upper(u: real): real {
    Ten(u / 2.0, u / 12.0, u / 30.0, u / 56.0, u / 90.0, u / 132.0, u / 182.0, u / 240.0, u / 306.0, u / 380.0, 1.0)
  }

  function Lower(u: real): real {
    Ten(u / 2.0, u / 12.0, u / 30.0, u / 56.0, u / 90.0, u / 132.0, u / 182.0, u / 240.0, u / 306.0, u / 380.0, 1.0 - u / 462.0)
  }

  function Ten(a: real, b: real, c: real, d: real, e: real, f: real, g: real, h: real, i: real, j: real, rest: real): real {
    1.0 - a * (1.0 - b * (1.0 - c * (1.0 - d * (1.0 - e * (1.0 - f * (1.0 - g * (1.0 - h * (1.0 - i * (1.0 - j * rest)))))))))
  }

  function Five(a: real, b: real, c: real, d: real, e: real, rest: real): real {
    1.0 - a * (1.0 - b * (1.0 - c * (1.0 - d * (1.0 - e * rest))))
  }

  lemma TenAreFives(a: real, b: real, c: real, d: real, e: real, f: real, g: real, h: real, i: real, j: real, rest: real)
    ensures Ten(a, b, c, d, e, f, g, h, i, j, rest) == Five(a, b, c, d, e, Five(f, g, h, i, j, rest))
  {
  }

  lemma FiveSteps(a: real, b: real, c: real, d: real, e: real, p: real, q: real, r: real, s: real, t: real, rest: real)
    requires p == Next(a, q) && q == Next(b, r) && r == Next(c, s) && s == Next(d, t) && t == Next(e, rest)
    ensures p == Five(a, b, c, d, e, rest)
  {
  }

  lemma FirstFive(m: nat, u: real, rest: real)
    requires rest == Partial(11, m, u)
    ensures Partial(1, m + 5, u) == Five(u / 2.0, u / 12.0, u / 30.0, u / 56.0, u / 90.0, rest)
  {
    var t := Partial(9, m + 1, u);
    assert t == Next(u / 90.0, rest);
    var s := Partial(7, m + 2, u);
    assert s == Next(u / 56.0, t);
    var r := Partial(5, m + 3, u);
    assert r == Next(u / 30.0, s);
    var q := Partial(3, m + 4, u);
    assert q == Next(u / 12.0, r);
    FiveSteps(u / 2.0, u / 12.0, u / 30.0, u / 56.0, u / 90.0, Partial(1, m + 5, u), q, r, s, t, rest);
  }

  lemma SecondFive(m: nat, u: real, rest: real)
    requires rest == Partial(21, m, u)
    ensures Partial(11, m + 5, u) == Five(u / 132.0, u / 182.0, u / 240.0, u / 306.0, u / 380.0, rest)
  {
    var t := Partial(19, m + 1, u);
    assert t == Next(u / 380.0, rest);
    var s := Partial(17, m + 2, u);
    assert s == Next(u / 306.0, t);
    var r := Partial(15, m + 3, u);
    assert r == Next(u / 240.0, s);
    var q := Partial(13, m + 4, u);
    assert q == Next(u / 182.0, r);
    FiveSteps(u / 132.0, u / 182.0, u / 240.0, u / 306.0, u / 380.0, Partial(11, m + 5, u), q, r, s, t, rest);
  }

  lemma LastOnes(u: real)
    ensures Partial(21, 0, u) == 1.0 && Partial(21, 1, u) == 1.0 - u / 462.0
  {
    assert Partial(21, 1, u) == Next(u / 462.0, Partial(23, 0, u));
  }

  /** These are the sums of ten and of eleven terms. */
  lemma BoundsArePartial(u: real)
    ensures Upper(u) == Partial(1, 10, u) && Lower(u) == Partial(1, 11, u)
  {
    LastOnes(u);
    FirstFive(5, u, Partial(11, 5, u));
    SecondFive(0, u, 1.0);
    TenAreFives(u / 2.0, u / 12.0, u / 30.0, u / 56.0, u / 90.0, u / 132.0, u / 182.0, u / 240.0, u / 306.0, u / 380.0, 1.0);
    FirstFive(6, u, Partial(11, 6, u));
    SecondFive(1, u, 1.0 - u / 462.0);
    TenAreFives(u / 2.0, u / 12.0, u / 30.0, u / 56.0, u / 90.0, u / 132.0, u / 182.0, u / 240.0, u / 306.0, u / 380.0, 1.0 - u / 462.0);
  }

  predicate GrowsSlowly(u: real, v: real, p: real, q: real) {
    0.0 <= p <= 1.0 && 0.0 <= q <= 1.0 && 0.0 <= v * q - u * p <= v - u
  }

  /** u times such a sum grows with u, but no faster than u. */
  lemma {:induction false} SumGrows(k: int, m: nat, u: real, v: real)
    requires k >= 3 && 0.0 <= u <= v <= 6.0
    ensures GrowsSlowly(u, v, Partial(k, m, u), Partial(k, m, v))
    decreases m
  {
    if m > 0 {
      SumGrows(k + 2, m - 1, u, v);
      AtLeastTwelve(k);
      GrowthStep((k * (k + 1)) as real, u, v, Partial(k + 2, m - 1, u), Partial(k + 2, m - 1, v),
                 Partial(k, m, u), Partial(k, m, v));
    } else {
      assert GrowsSlowly(u, v, 1.0, 1.0);
    }
  }

  lemma AtLeastTwelve(k: int)
    requires k >= 3
    ensures k * (k + 1) >= 12
  {
  }

  lemma GrowthStep(c: real, u: real, v: real, p: real, q: real, x: real, y: real)
    requires c >= 12.0 && 0.0 <= u <= v <= 6.0 && GrowsSlowly(u, v, p, q)
    requires x == Next(u / c, p) && y == Next(v / c, q)
    ensures GrowsSlowly(u, v, x, y)
  {
    NextOf(c, u, p, u * p);
    NextOf(c, v, q, v * q);
    Grows(c, u, v, u * p, v * q, x, y);
  }

  lemma NextOf(c: real, u: real, p: real, g: real)
    requires c >= 12.0 && 0.0 <= u <= 6.0 && 0.0 <= p <= 1.0 && g == u * p
    ensures 0.0 <= g <= 6.0 && Next(u / c, p) == 1.0 - g / c && 0.0 <= g / c <= 1.0
  {
    AtMostSix(u, p);
    Quotient(c, g);
    assert u / c * p == u * p / c;
  }

  lemma AtMostSix(u: real, p: real)
    requires 0.0 <= u <= 6.0 && 0.0 <= p <= 1.0
    ensures 0.0 <= u * p <= 6.0
  {
    ProductBetween(u, p, 1.0);
  }

  lemma Grows(c: real, u: real, v: real, g: real, h: real, x: real, y: real)
    requires c >= 12.0 && 0.0 <= u <= v <= 6.0 && 0.0 <= g <= 6.0 && 0.0 <= h - g <= v - u
    requires x == 1.0 - g / c && y == 1.0 - h / c
    ensures 0.0 <= v * y - u * x <= v - u
  {
    var w := v * h - u * g;
    ProductStep(u, v, g, h);
    QuotientBetween(c, w, v - u);
    Difference(c, u, v, g, h, x, y);
  }

  lemma Difference(c: real, u: real, v: real, g: real, h: real, x: real, y: real)
    requires c >= 12.0 && x == 1.0 - g / c && y == 1.0 - h / c
    ensures v * y - u * x == (v - u) - (v * h - u * g) / c
  {
    assert v * (h / c) == v * h / c && u * (g / c) == u * g / c;
    assert (v * h - u * g) / c == v * h / c - u * g / c;
    assert v * y == v - v * (h / c) && u * x == u - u * (g / c);
  }

  lemma ProductStep(u: real, v: real, g: real, h: real)
    requires 0.0 <= u <= v <= 6.0 && 0.0 <= g <= 6.0 && 0.0 <= h - g <= v - u
    ensures 0.0 <= v * h - u * g <= 12.0 * (v - u)
  {
    assert v * h - u * g == v * (h - g) + g * (v - u);
    ProductBetween(v, h - g, v - u);
    ProductBetween(g, v - u, v - u);
  }

  lemma NonNegative(x: real, y: real)
    requires 0.0 <= x && 0.0 <= y
    ensures 0.0 <= x * y
  {
  }

  lemma ProductBetween(x: real, y: real, z: real)
    requires 0.0 <= x <= 6.0 && 0.0 <= y <= z
    ensures 0.0 <= x * y <= 6.0 * z
  {
    NonNegative(x, y);
    NonNegative(6.0 - x, y);
    assert (6.0 - x) * y == 6.0 * y - x * y;
  }

  lemma Quotient(c: real, g: real)
    requires c >= 12.0 && 0.0 <= g <= 6.0
    ensures 0.0 <= g / c <= 1.0
  {
  }

  lemma QuotientBetween(c: real, x: real, d: real)
    requires c >= 12.0 && 0.0 <= x <= 12.0 * d
    ensures 0.0 <= x / c <= d
  {
    assert x <= c * d;
  }

  lemma SumsDecrease(m: nat, u: real, v: real)
    requires 0.0 <= u <= v <= 6.0
    ensures Partial(1, m + 1, v) <= Partial(1, m + 1, u)
  {
    SumGrows(3, m, u, v);
    FirstTerm(m, u, Partial(3, m, u));
    FirstTerm(m, v, Partial(3, m, v));
  }

  lemma FirstTerm(m: nat, u: real, p: real)
    requires p == Partial(3, m, u)
    ensures Partial(1, m + 1, u) == 1.0 - u * p / 2.0
  {
    assert Partial(1, m + 1, u) == Next(u / 2.0, p);
  }

  lemma SquareGrows(x: real, y: real)
    requires 0.0 <= x <= y
    ensures 0.0 <= Square(x) <= Square(y)
  {
  }

  lemma ProductGrows(x: real, y: real, p: real, q: real)
    requires 0.0 <= x <= y && 0.0 <= p <= q
    ensures x * Square(p) <= y * Square(q)
  {
    SquareGrows(p, q);
    NonNegative(y - x, Square(p));
    NonNegative(y, Square(q) - Square(p));
    assert y * Square(q) - x * Square(p) == y * (Square(q) - Square(p)) + (y - x) * Square(p);
  }

  lemma TurnFrom(pi: real, n: real, low: real)
    requires IsPi(pi) && n >= 3.0 && low * n <= 2.0 * 3.14159265358979323846
    ensures low <= 2.0 * pi / n <= 2.1
  {
  }

  lemma TurnTo(pi: real, n: real, high: real)
    requires IsPi(pi) && n >= 3.0 && 2.0 * 3.14159265358979323847 <= high * n
    ensures 0.0 <= 2.0 * pi / n <= high && 2.0 * pi / n <= 2.1
  {
  }

  lemma LatitudeTo(pi: real, a: real, edge: real, high: real)
    requires IsPi(pi) && 0.0 <= a <= edge && 3.14159265358979323847 * edge / 180.0 <= high
    ensures 0.0 <= pi * a / 180.0 <= high
  {
  }

  lemma LatitudeFrom(pi: real, edge: real, a: real, low: real)
    requires IsPi(pi) && 0.0 <= edge <= a <= 87.0 && low <= 3.14159265358979323846 * edge / 180.0
    ensures low <= pi * a / 180.0 <= 1.52
  {
    NonNegative(pi - 3.14159265358979323846, a);
    NonNegative(3.14159265358979323847 - pi, a);
  }

  /** A cosine lies between two sums at an angle that is not smaller and one not larger. */
  lemma CosineBetween(cos: real -> real, m: nat, low: real, x: real, high: real)
    requires IsCosine(cos) && m >= 1 && 0.0 <= low <= x <= high <= 2.1
    ensures Partial(1, 2 * m + 1, Square(high)) <= cos(x) <= Partial(1, 2 * m, Square(low))
  {
    assert Bracketed(cos(x), x, m);
    SquareGrows(low, x);
    SquareGrows(x, high);
    SquareGrows(high, 2.1);
    SumsDecrease(2 * m - 1, Square(low), Square(x));
    SumsDecrease(2 * m, Square(x), Square(high));
  }

  // --- latitudes that are compared by the bounds ------------------------------------------------

  predicate UpTo(low: real, c: real) {
    Upper(Square(low)) <= c
  }

  predicate DownTo(high: real, c: real) {
    c <= Lower(Square(high))
  }

  ghost predicate AtMost(cos: real -> real, low: real, c: real) {
    forall x: real :: low <= x <= 2.1 ==> cos(x) <= c
  }

  ghost predicate AtLeast(cos: real -> real, high: real, c: real) {
    forall x: real :: 0.0 <= x <= high ==> c <= cos(x)
  }

  lemma UpperBounds(cos: real -> real, low: real, c: real)
    requires IsCosine(cos) && 0.0 <= low <= 2.1 && UpTo(low, c)
    ensures AtMost(cos, low, c)
  {
    BoundsArePartial(Square(low));
    forall x: real | low <= x <= 2.1
      ensures cos(x) <= c
    {
      CosineBetween(cos, 5, low, x, 2.1);
    }
  }

  lemma LowerBounds(cos: real -> real, high: real, c: real)
    requires IsCosine(cos) && 0.0 <= high <= 2.1 && DownTo(high, c)
    ensures AtLeast(cos, high, c)
  {
    BoundsArePartial(Square(high));
    forall x: real | 0.0 <= x <= high
      ensures c <= cos(x)
    {
      CosineBetween(cos, 5, 0.0, x, high);
    }
  }

  predicate Above(turn: real, lat: real, step: real) {
    (1.0 - turn) * Square(lat) > 1.0 - step
  }

  predicate Below(turn: real, lat: real, step: real) {
    (1.0 - turn) * Square(lat) < 1.0 - step
  }

  lemma MoreAbove(x: real, x': real, y: real, y': real, z: real, z': real)
    requires x' <= x <= 1.0 && 0.0 <= y <= y' && z <= z' && Above(x, y, z)
    ensures Above(x', y', z')
  {
    ProductGrows(1.0 - x, 1.0 - x', y, y');
  }

  lemma MoreBelow(x: real, x': real, y: real, y': real, z: real, z': real)
    requires x <= x' <= 1.0 && 0.0 <= y' <= y && z' <= z && Below(x, y, z)
    ensures Below(x', y', z')
  {
    ProductGrows(1.0 - x', 1.0 - x, y', y);
  }

  lemma AboveAt(cos: real -> real, low: real, x: real, y: real, high: real, z: real, top: real,
                turn: real, lat: real, step: real)
    requires low <= x <= 2.1 && 0.0 <= y <= high && 0.0 <= z <= top
    requires AtMost(cos, low, turn) && turn <= 1.0 && AtLeast(cos, high, lat) && 0.0 <= lat
    requires AtLeast(cos, top, step) && Above(turn, lat, step)
    ensures Above(cos(x), cos(y), cos(z))
  {
    MoreAbove(turn, cos(x), lat, cos(y), step, cos(z));
  }

  lemma BelowAt(cos: real -> real, x: real, high: real, low: real, y: real, bottom: real, z: real,
                turn: real, lat: real, step: real)
    requires 0.0 <= x <= high && x <= 2.1 && 0.0 <= low <= y <= 1.52 && bottom <= z <= 2.1
    requires AtMost(cos, 0.0, 1.0) && AtLeast(cos, 1.52, 0.0)
    requires AtLeast(cos, high, turn) && AtMost(cos, low, lat) && AtMost(cos, bottom, step) && Below(turn, lat, step)
    ensures Below(cos(x), cos(y), cos(z))
  {
    MoreBelow(turn, cos(x), lat, cos(y), step, cos(z));
  }

  /** What the bounds say of one latitude holds of every one south of it, ... */
  lemma FitsSouth(cos: real -> real, pi: real, a: real, n: int, edge: real,
                  low: real, high: real, turn: real, lat: real, step: real)
    requires IsPi(pi) && 3 <= n && 0.0 <= a <= edge <= 87.0
    requires 0.0 <= low && low * n as real <= 2.0 * 3.14159265358979323846 && 3.14159265358979323847 * edge / 180.0 <= high
    requires AtMost(cos, low, turn) && turn <= 1.0 && AtLeast(cos, high, lat) && 0.0 <= lat
    requires AtLeast(cos, 3.14159265358979323847 / 30.0, step) && Above(turn, lat, step)
    ensures Fits(cos, pi, a, n)
  {
    TurnFrom(pi, n as real, low);
    LatitudeTo(pi, a, edge, high);
    AboveAt(cos, low, 2.0 * pi / n as real, pi * a / 180.0, high, pi / 30.0, 3.14159265358979323847 / 30.0, turn, lat, step);
  }

  /** ... or north of it. */
  lemma MissesNorth(cos: real -> real, pi: real, a: real, n: int, edge: real,
                    high: real, low: real, turn: real, lat: real, step: real)
    requires IsPi(pi) && 3 <= n && 0.0 <= edge <= a <= 87.0
    requires 2.0 * 3.14159265358979323847 <= high * n as real && 0.0 <= low <= 3.14159265358979323846 * edge / 180.0
    requires AtMost(cos, 0.0, 1.0) && AtLeast(cos, 1.52, 0.0)
    requires AtLeast(cos, high, turn) && AtMost(cos, low, lat)
    requires AtMost(cos, 3.14159265358979323846 / 30.0, step) && Below(turn, lat, step)
    ensures !Fits(cos, pi, a, n)
  {
    TurnTo(pi, n as real, high);
    LatitudeFrom(pi, edge, a, low);
    BelowAt(cos, 2.0 * pi / n as real, high, low, pi * a / 180.0, 3.14159265358979323846 / 30.0, pi / 30.0, turn, lat, step);
  }

  /** The bounds at 6 degrees, and those that hold from the equator to 87 degrees. */
  lemma StepBounds(cos: real -> real)
    requires IsCosine(cos)
    ensures AtLeast(cos, 3.14159265358979323847 / 30.0, 0.99452189536827333)
    ensures AtMost(cos, 3.14159265358979323846 / 30.0, 0.99452189536827334)
    ensures AtMost(cos, 0.0, 1.0) && AtLeast(cos, 1.52, 0.0)
  {
    LowerBounds(cos, 3.14159265358979323847 / 30.0, 0.99452189536827333);
    UpperBounds(cos, 3.14159265358979323846 / 30.0, 0.99452189536827334);
    UpperBounds(cos, 0.0, 1.0);
    LowerBounds(cos, 1.52, 0.0);
  }

  /** The table is rounded to 8 decimals; where a report can come closer, the bound is closer. */
  function Margin(n: int): real {
    if n == 42 then 0.000000004 else 0.00000001
  }

  /** A latitude is not just at one of the first 57 transition latitudes of the table. */
  predicate ClearOf(n: int, a: real)
    requires 3 <= n <= 59
  {
    a <= Transition(n) - 0.00000001 || a >= Transition(n) + Margin(n)
  }

  ghost predicate Clear(lat: real) {
    forall n :: 3 <= n <= 59 ==> ClearOf(n, Abs(lat))
  }

  lemma TableRange(n: int)
    requires 3 <= n <= 59
    ensures 1.0 < Transition(n) < 86.6
  {
    TableDecreases(n, 59);
    TableDecreases(3, n);
  }

  /** One entry of the table: n zones fit exactly below it. Angles on either side of those that
      decide about n zones just south of it and just north, and bounds of their cosines, are given. */
  lemma EntryExact(cos: real -> real, pi: real, a: real, n: int, south: real, north: real,
                   low: real, high: real, angle: real, angle': real, turn: real, turn': real, lat: real, lat': real)
    requires IsCosine(cos) && IsPi(pi) && 3 <= n <= 59 && 0.0 <= a <= 87.0 && ClearOf(n, a)
    requires south == Transition(n) - 0.00000001 && north == Transition(n) + Margin(n)
    requires 0.0 <= low && low * n as real <= 2.0 * 3.14159265358979323846 && 2.0 * 3.14159265358979323847 <= high * n as real && high <= 2.1
    requires 3.14159265358979323847 * south / 180.0 <= angle <= 1.52 && 0.0 <= angle' <= 3.14159265358979323846 * north / 180.0
    requires UpTo(low, turn) && DownTo(high, turn') && DownTo(angle, lat) && UpTo(angle', lat')
    requires turn <= 1.0 && 0.0 <= lat && Above(turn, lat, 0.99452189536827333) && Below(turn', lat', 0.99452189536827334)
    ensures Fits(cos, pi, a, n) <==> a < Transition(n)
  {
    TableRange(n);
    StepBounds(cos);
    if a < Transition(n) {
      UpperBounds(cos, low, turn);
      LowerBounds(cos, angle, lat);
      FitsSouth(cos, pi, a, n, south, low, angle, turn, lat, 0.99452189536827333);
    } else {
      LowerBounds(cos, high, turn');
      UpperBounds(cos, angle', lat');
      MissesNorth(cos, pi, a, n, north, high, angle', turn', lat', 0.99452189536827334);
    }
  }

  lemma Entries59(cos: real -> real, pi: real, a: real, n: int)
    requires IsCosine(cos) && IsPi(pi) && 50 <= n <= 59 && 0.0 <= a <= 87.0 && ClearOf(n, a)
    ensures Fits(cos, pi, a, n) <==> a < Transition(n)
  {
    match n
    case 59 => EntryExact(cos, pi, a, 59, 10.47047130 - 0.00000001, 10.47047130 + 0.00000001,
               0.10649466622338282, 0.10649466622338283, 0.18274419824603804, 0.18274419859510388,
               0.99433480021013714, 0.99433480021013713, 0.98334869628721596, 0.98334869622378066);
    case 58 => EntryExact(cos, pi, a, 58, 14.82817437 - 0.00000001, 14.82817437 + 0.00000001,
               0.10833078115826873, 0.10833078115826874, 0.25880046464180297, 0.25880046499086881,
               0.99413795715435961, 0.99413795715435960, 0.96669766001048445, 0.96669765992115113);
    case 57 => EntryExact(cos, pi, a, 57, 18.18626357 - 0.00000001, 18.18626357 + 0.00000001,
               0.11023132117858923, 0.11023132117858924, 0.31741017775746534, 0.31741017810653118,
               0.99393067731794948, 0.99393067731794947, 0.95004690530292164, 0.95004690519397570);
    case 56 => EntryExact(cos, pi, a, 56, 21.02939493 - 0.00000001, 21.02939493 + 0.00000001,
               0.11219973762820690, 0.11219973762820691, 0.36703218105616955, 0.36703218140523539,
               0.99371220989324259, 0.99371220989324258, 0.93339644721696618, 0.93339644709170501);
    case 55 => EntryExact(cos, pi, a, 55, 23.54504487 - 0.00000001, 23.54504487 + 0.00000001,
               0.11423973285781066, 0.11423973285781067, 0.41093855533676735, 0.41093855568583319,
               0.99348173534855021, 0.99348173534855020, 0.91674630201999378, 0.91674630188055249);
    case 54 => EntryExact(cos, pi, a, 54, 25.82924707 - 0.00000001, 25.82924707 + 0.00000001,
               0.11635528346628863, 0.11635528346628864, 0.45080540450806537, 0.45080540485713121,
               0.99323835774194299, 0.99323835774194298, 0.90009648713913875, 0.90009648698705405);
    case 53 => EntryExact(cos, pi, a, 53, 27.93898710 - 0.00000001, 27.93898710 + 0.00000001,
               0.11855066617319974, 0.11855066617319975, 0.48762731439268931, 0.48762731474175515,
               0.99298109601351697, 0.99298109601351696, 0.88344702122800899, 0.88344702106446081);
    case 52 => EntryExact(cos, pi, a, 52, 29.91135686 - 0.00000001, 29.91135686 + 0.00000001,
               0.12083048667653050, 0.12083048667653051, 0.52205166077145967, 0.52205166112052551,
               0.99270887409805400, 0.99270887409805399, 0.86679792444573253, 0.86679792427166752);
    case 51 => EntryExact(cos, pi, a, 51, 31.77209708 - 0.00000001, 31.77209708 + 0.00000001,
               0.12319971190548208, 0.12319971190548209, 0.55452770413474331, 0.55452770448380915,
               0.99242050967193576, 0.99242050967193575, 0.85014921861165730, 0.85014921842785954);
    case 50 => EntryExact(cos, pi, a, 50, 33.53993436 - 0.00000001, 33.53993436 + 0.00000001,
               0.12566370614359172, 0.12566370614359173, 0.58538228531024421, 0.58538228565931005,
               0.99211470131447784, 0.99211470131447783, 0.83350092725978906, 0.83350092706692389);
  }

  lemma Entries49(cos: real -> real, pi: real, a: real, n: int)
    requires IsCosine(cos) && IsPi(pi) && 40 <= n <= 49 && 0.0 <= a <= 87.0 && ClearOf(n, a)
    ensures Fits(cos, pi, a, n) <==> a < Transition(n)
  {
    match n
    case 49 => EntryExact(cos, pi, a, 49, 35.22899598 - 0.00000001, 35.22899598 + 0.00000001,
               0.12822827157509360, 0.12822827157509361, 0.61486197184831352, 0.61486197219737936,
               0.99179001382324611, 0.99179001382324610, 0.81685307563851062, 0.81685307543715347);
    case 48 => EntryExact(cos, pi, a, 48, 36.85025108 - 0.00000001, 36.85025108 + 0.00000001,
               0.13089969389957471, 0.13089969389957472, 0.64315821135806344, 0.64315821170712928,
               0.99144486137381042, 0.99144486137381041, 0.80020569142564085, 0.80020569121629712);
    case 47 => EntryExact(cos, pi, a, 47, 38.41241892 - 0.00000001, 38.41241892 + 0.00000001,
               0.13368479376977843, 0.13368479376977844, 0.67042318363483141, 0.67042318398389725,
               0.99107748815478010, 0.99107748815478009, 0.78355880459640848, 0.78355880437952773);
    case 46 => EntryExact(cos, pi, a, 46, 39.92256684 - 0.00000001, 39.92256684 + 0.00000001,
               0.13659098493868666, 0.13659098493868667, 0.69678023703097534, 0.69678023738004118,
               0.99068594603633076, 0.99068594603633075, 0.76691244744626601, 0.76691244722225240);
    case 45 => EntryExact(cos, pi, a, 45, 41.38651832 - 0.00000001, 41.38651832 + 0.00000001,
               0.13962634015954636, 0.13962634015954637, 0.72233101044641926, 0.72233101079548510,
               0.99026806874157032, 0.99026806874157031, 0.75026665546573269, 0.75026665523495294);
    case 44 => EntryExact(cos, pi, a, 44, 42.80914012 - 0.00000001, 42.80914012 + 0.00000001,
               0.14279966607226332, 0.14279966607226333, 0.74716044486706752, 0.74716044521613336,
               0.98982144188093274, 0.98982144188093273, 0.73362146728404194, 0.73362146704683134);
    case 43 => EntryExact(cos, pi, a, 43, 44.19454951 - 0.00000001, 44.19454951 + 0.00000001,
               0.14612058853906015, 0.14612058853906016, 0.77134040021061373, 0.77134040055967957,
               0.98934336807511020, 0.98934336807511019, 0.71697692514472125, 0.71697692490138854);
    case 42 => EntryExact(cos, pi, a, 42, 45.54626723 - 0.00000001, 45.54626723 + 0.000000004,
               0.14959965017094253, 0.14959965017094254, 0.79493232498216453, 0.79493232522651062,
               0.98883082622512855, 0.98883082622512854, 0.70033307516957898, 0.70033307499516079);
    case 41 => EntryExact(cos, pi, a, 41, 46.86733252 - 0.00000001, 46.86733252 + 0.00000001,
               0.15324842212633137, 0.15324842212633138, 0.81798926392647825, 0.81798926427554409,
               0.98828042378034853, 0.98828042378034852, 0.68368996846178428, 0.68368996820704561);
    case 40 => EntryExact(cos, pi, a, 40, 48.16039128 - 0.00000001, 48.16039128 + 0.00000001,
               0.15707963267948966, 0.15707963267948967, 0.84055739671023341, 0.84055739705929925,
               0.98768834059513773, 0.98768834059513772, 0.66704766055005645, 0.66704766028999715);
  }

  lemma Entries39(cos: real -> real, pi: real, a: real, n: int)
    requires IsCosine(cos) && IsPi(pi) && 30 <= n <= 39 && 0.0 <= a <= 87.0 && ClearOf(n, a)
    ensures Fits(cos, pi, a, n) <==> a < Transition(n)
  {
    match n
    case 39 => EntryExact(cos, pi, a, 39, 49.42776439 - 0.00000001, 49.42776439 + 0.00000001,
               0.16110731556870734, 0.16110731556870735, 0.86267723033097368, 0.86267723068003952,
               0.98705026263791287, 0.98705026263791286, 0.65040621330061344, 0.65040621303546773);
    case 38 => EntryExact(cos, pi, a, 38, 50.67150166 - 0.00000001, 50.67150166 + 0.00000001,
               0.16534698176788385, 0.16534698176788386, 0.88438454072223937, 0.88438454107130521,
               0.98636130340272238, 0.98636130340272237, 0.63376569467547184, 0.63376569440546066);
    case 37 => EntryExact(cos, pi, a, 37, 51.89342469 - 0.00000001, 51.89342469 + 0.00000001,
               0.16981581911296179, 0.16981581911296180, 0.90571112080168482, 0.90571112115075066,
               0.98561591034770847, 0.98561591034770846, 0.61712618051431381, 0.61712618023964641);
    case 36 => EntryExact(cos, pi, a, 36, 53.09516153 - 0.00000001, 53.09516153 + 0.00000001,
               0.17453292519943295, 0.17453292519943296, 0.92668538540219712, 0.92668538575126296,
               0.98480775301220807, 0.98480775301220805, 0.60048775448055653, 0.60048775420143164);
    case 35 => EntryExact(cos, pi, a, 35, 54.27817472 - 0.00000001, 54.27817472 + 0.00000001,
               0.17951958020513104, 0.17951958020513105, 0.94733286066221837, 0.94733286101128421,
               0.98392958859862966, 0.98392958859862965, 0.58385051044394275, 0.58385051016054975);
    case 34 => EntryExact(cos, pi, a, 34, 55.44378444 - 0.00000001, 55.44378444 + 0.00000001,
               0.18479956785822313, 0.18479956785822314, 0.96767658806946757, 0.96767658841853341,
               0.98297309968390178, 0.98297309968390177, 0.56721455293228613, 0.56721455264480597);
    case 33 => EntryExact(cos, pi, a, 33, 56.59318756 - 0.00000001, 56.59318756 + 0.00000001,
               0.19039955476301777, 0.19039955476301778, 0.98773745694616306, 0.98773745729522890,
               0.98192869726270671, 0.98192869726270669, 0.55057999933963579, 0.55057999904824178);
    case 32 => EntryExact(cos, pi, a, 32, 57.72747354 - 0.00000001, 57.72747354 + 0.00000001,
               0.19634954084936207, 0.19634954084936208, 1.00753448195637361, 1.00753448230543945,
               0.98078528040323046, 0.98078528040323044, 0.53394698192075391, 0.53394698162561249);
    case 31 => EntryExact(cos, pi, a, 31, 58.84763776 - 0.00000001, 58.84763776 + 0.00000001,
               0.20268339700579311, 0.20268339700579312, 1.02708503575840772, 1.02708503610747357,
               0.97952994125249450, 0.97952994125249449, 0.51731565011822422, 0.51731564981949553);
    case 30 => EntryExact(cos, pi, a, 30, 59.95459277 - 0.00000001, 59.95459277 + 0.00000001,
               0.20943951023931954, 0.20943951023931955, 1.04640504535435448, 1.04640504570342032,
               0.97814760073380564, 0.97814760073380563, 0.50068617310381758, 0.50068617280165612);
  }

  lemma Entries29(cos: real -> real, pi: real, a: real, n: int)
    requires IsCosine(cos) && IsPi(pi) && 20 <= n <= 29 && 0.0 <= a <= 87.0 && ClearOf(n, a)
    ensures Fits(cos, pi, a, n) <==> a < Transition(n)
  {
    match n
    case 29 => EntryExact(cos, pi, a, 29, 61.04917774 - 0.00000001, 61.04917774 + 0.00000001,
               0.21666156231653746, 0.21666156231653747, 1.06550915702369784, 1.06550915737276368,
               0.97662055571008669, 0.97662055571008668, 0.48405874402513828, 0.48405874371969329);
    case 28 => EntryExact(cos, pi, a, 28, 62.13216659 - 0.00000001, 62.13216659 + 0.00000001,
               0.22439947525641380, 0.22439947525641381, 1.08441087821858483, 1.08441087856765067,
               0.97492791218182361, 0.97492791218182360, 0.46743358326942211, 0.46743358296083808);
    case 27 => EntryExact(cos, pi, a, 27, 63.20427479 - 0.00000001, 63.20427479 + 0.00000001,
               0.23271056693257727, 0.23271056693257728, 1.10312269624621470, 1.10312269659528054,
               0.97304487057982385, 0.97304487057982383, 0.45081094451193470, 0.45081094420035175);
    case 26 => EntryExact(cos, pi, a, 26, 64.26616523 - 0.00000001, 64.26616523 + 0.00000001,
               0.24166097335306101, 0.24166097335306102, 1.12165618071966600, 1.12165618106873184,
               0.97094181742605203, 0.97094181742605202, 0.43419112043602537, 0.43419112012157962);
    case 25 => EntryExact(cos, pi, a, 25, 65.31845310 - 0.00000001, 65.31845310 + 0.00000001,
               0.25132741228718345, 0.25132741228718346, 1.14002206872996406, 1.14002206907902990,
               0.96858316112863113, 0.96858316112863111, 0.41757445146940735, 0.41757445115223123);
    case 24 => EntryExact(cos, pi, a, 24, 66.36171008 - 0.00000001, 66.36171008 + 0.00000001,
               0.26179938779914943, 0.26179938779914944, 1.15823033797537669, 1.15823033832444253,
               0.96592582628906829, 0.96592582628906828, 0.40096133489872008, 0.40096133457894263);
    case 23 => EntryExact(cos, pi, a, 23, 67.39646774 - 0.00000001, 67.39646774 + 0.00000001,
               0.27318196987737332, 0.27318196987737333, 1.17629026610260872, 1.17629026645167456,
               0.96291728734779930, 0.96291728734779929, 0.38435223760077312, 0.38435223727852025);
    case 22 => EntryExact(cos, pi, a, 22, 68.42322022 - 0.00000001, 68.42322022 + 0.00000001,
               0.28559933214452665, 0.28559933214452666, 1.19421047748162595, 1.19421047783069179,
               0.95949297361449740, 0.95949297361449738, 0.36774771276812966, 0.36774771244352441);
    case 21 => EntryExact(cos, pi, a, 21, 69.44242631 - 0.00000001, 69.44242631 + 0.00000001,
               0.29919930034188507, 0.29919930034188508, 1.21199897950850360, 1.21199897985756944,
               0.95557280578614074, 0.95557280578614072, 0.35114841993173140, 0.35114841960489415);
    case 20 => EntryExact(cos, pi, a, 20, 70.45451075 - 0.00000001, 70.45451075 + 0.00000001,
               0.31415926535897932, 0.31415926535897933, 1.22966318529470660, 1.22966318564377244,
               0.95105651629515358, 0.95105651629515357, 0.33455515224790899, 0.33455515191895767);
  }

  lemma Entries19(cos: real -> real, pi: real, a: real, n: int)
    requires IsCosine(cos) && IsPi(pi) && 10 <= n <= 19 && 0.0 <= a <= 87.0 && ClearOf(n, a)
    ensures Fits(cos, pi, a, n) <==> a < Transition(n)
  {
    match n
    case 19 => EntryExact(cos, pi, a, 19, 71.45986473 - 0.00000001, 71.45986473 + 0.00000001,
               0.33069396353576770, 0.33069396353576771, 1.24720992239373582, 1.24720992274280166,
               0.94581724170063469, 0.94581724170063467, 0.31796887237730621, 0.31796887204635650);
    case 18 => EntryExact(cos, pi, a, 18, 72.45884545 - 0.00000001, 72.45884545 + 0.00000001,
               0.34906585039886591, 0.34906585039886592, 1.26464542512167939, 1.26464542547074523,
               0.93969262078590839, 0.93969262078590838, 0.30139076014027191, 0.30139075980743740);
    case 17 => EntryExact(cos, pi, a, 17, 73.45177442 - 0.00000001, 73.45177442 + 0.00000001,
               0.36959913571644626, 0.36959913571644627, 1.28197530488661539, 1.28197530523568123,
               0.93247222940435581, 0.93247222940435580, 0.28482227809555601, 0.28482227776094837);
    case 16 => EntryExact(cos, pi, a, 16, 74.43893416 - 0.00000001, 74.43893416 + 0.00000001,
               0.39269908169872415, 0.39269908169872416, 1.29920449259274656, 1.29920449294181240,
               0.92387953251128676, 0.92387953251128675, 0.26826526157665073, 0.26826526124037988);
    case 15 => EntryExact(cos, pi, a, 15, 75.42056257 - 0.00000001, 75.42056257 + 0.00000001,
               0.41887902047863909, 0.41887902047863910, 1.31633714037836339, 1.31633714072742923,
               0.91354545764260090, 0.91354545764260089, 0.25172204631707434, 0.25172204597924858);
    case 14 => EntryExact(cos, pi, a, 14, 76.39684391 - 0.00000001, 76.39684391 + 0.00000001,
               0.44879895051282760, 0.44879895051282761, 1.33337646418714561, 1.33337646453621145,
               0.90096886790241913, 0.90096886790241912, 0.23519565257266126, 0.23519565223338741);
    case 13 => EntryExact(cos, pi, a, 13, 77.36789461 - 0.00000001, 77.36789461 + 0.00000001,
               0.48332194670612203, 0.48332194670612204, 1.35032449610594131, 1.35032449645500715,
               0.88545602565320990, 0.88545602565320989, 0.21869005713805477, 0.21869005679743830);
    case 12 => EntryExact(cos, pi, a, 12, 78.33374083 - 0.00000001, 78.33374083 + 0.00000001,
               0.52359877559829887, 0.52359877559829888, 1.36718169271288282, 1.36718169306194866,
               0.86602540378443865, 0.86602540378443864, 0.20221060727209983, 0.20221060693024498);
    case 11 => EntryExact(cos, pi, a, 11, 79.29428225 - 0.00000001, 79.29428225 + 0.00000001,
               0.57119866428905331, 0.57119866428905332, 1.38394630309366453, 1.38394630344273037,
               0.84125353283118118, 0.84125353283118116, 0.18576467306472237, 0.18576467272173229);
    case 10 => EntryExact(cos, pi, a, 10, 80.24923213 - 0.00000001, 80.24923213 + 0.00000001,
               0.62831853071795864, 0.62831853071795865, 1.40061332269118928, 1.40061332304025512,
               0.80901699437494743, 0.80901699437494742, 0.16936271228988425, 0.16936271194586110);
  }

  lemma Entries9(cos: real -> real, pi: real, a: real, n: int)
    requires IsCosine(cos) && IsPi(pi) && 3 <= n <= 9 && 0.0 <= a <= 87.0 && ClearOf(n, a)
    ensures Fits(cos, pi, a, n) <==> a < Transition(n)
  {
    match n
    case 9 => EntryExact(cos, pi, a, 9, 81.19801349 - 0.00000001, 81.19801349 + 0.00000001,
               0.69813170079773183, 0.69813170079773184, 1.41717268130473890, 1.41717268165380474,
               0.76604444311897804, 0.76604444311897802, 0.15302009936924489, 0.15302009902428998);
    case 8 => EntryExact(cos, pi, a, 8, 82.13956981 - 0.00000001, 82.13956981 + 0.00000001,
               0.78539816339744830, 0.78539816339744831, 1.43360593918170024, 1.43360593953076608,
               0.70710678118654754, 0.70710678118654752, 0.13676044440512276, 0.13676044405933670);
    case 7 => EntryExact(cos, pi, a, 7, 83.07199445 - 0.00000001, 83.07199445 + 0.00000001,
               0.89759790102565521, 0.89759790102565522, 1.44987981917642306, 1.44987981952548890,
               0.62348980185873354, 0.62348980185873352, 0.12062207356168112, 0.12062207321516399);
    case 6 => EntryExact(cos, pi, a, 6, 83.99173563 - 0.00000001, 83.99173563 + 0.00000001,
               1.04719755119659774, 1.04719755119659775, 1.46593233103360088, 1.46593233138266672,
               0.50000000000000001, 0.49999999999999999, 0.10467191265608869, 0.10467191230894034);
    case 5 => EntryExact(cos, pi, a, 5, 84.89166191 - 0.00000001, 84.89166191 + 0.00000001,
               1.25663706143591729, 1.25663706143591730, 1.48163900764482528, 1.48163900799389112,
               0.30901699437494743, 0.30901699437494741, 0.08903924708992490, 0.08903924674224552);
    case 4 => EntryExact(cos, pi, a, 4, 85.75541621 - 0.00000001, 85.75541621 + 0.00000001,
               1.57079632679489661, 1.57079632679489662, 1.49671436410808413, 1.49671436445714997,
               0.00000000000000003, -0.00000000000000001, 0.07401421928291620, 0.07401421893480780);
    case 3 => EntryExact(cos, pi, a, 3, 86.53536998 - 0.00000001, 86.53536998 + 0.00000001,
               2.09439510239319549, 2.09439510239319550, 1.51032712540792671, 1.51032712575699255,
               -0.49999999999998978, -0.50000000000000009, 0.06043235693953537, 0.06043235659110754);
  }

  /** The whole table. */
  lemma TransitionExact(cos: real -> real, pi: real, a: real, n: int)
    requires IsCosine(cos) && IsPi(pi) && 3 <= n <= 59 && 0.0 <= a <= 87.0 && ClearOf(n, a)
    ensures Fits(cos, pi, a, n) <==> a < Transition(n)
  {
    if n >= 50 {
      Entries59(cos, pi, a, n);
    } else if n >= 40 {
      Entries49(cos, pi, a, n);
    } else if n >= 30 {
      Entries39(cos, pi, a, n);
    } else if n >= 20 {
      Entries29(cos, pi, a, n);
    } else if n >= 10 {
      Entries19(cos, pi, a, n);
    } else {
      Entries9(cos, pi, a, n);
    }
  }

  /** The table agrees with the standard's formula, but for one latitude: at 87 degrees north or
      south there are two zones by the standard, and one by the search through the table. */
  lemma TableIsStandard(cos: real -> real, pi: real, lat: real)
    requires IsCosine(cos) && IsPi(pi) && Clear(lat)
    ensures StandardNL(cos, pi, lat) == NL(lat) <==> Abs(lat) != 87.0
    ensures Abs(lat) == 87.0 ==> StandardNL(cos, pi, lat) == 2 && NL(lat) == 1
  {
    var a := Abs(lat);
    if a < 87.0 {
      var n := MostFitting(cos, pi, a, 59);
      if 2 < n {
        assert ClearOf(n, a);
        TransitionExact(cos, pi, a, n);
      }
      if n < 59 {
        assert ClearOf(n + 1, a);
        TransitionExact(cos, pi, a, n + 1);
      }
    }
    NLCharacterised(lat, StandardNL(cos, pi, lat));
    NLCharacterised(lat, 1);
  }
}
