/** The number-of-longitude-zones function of Compact Position Reporting: the
    transition latitude table of lib/tracker/cpr.go and the search through it. */
module NlTable {
  import opened Basics

  /** NLTable[n]: the latitude below which there are at least n longitude zones. */
  function Transition(n: int): real
    requires 2 <= n <= 59
  {
    match n
    case 59 => 10.47047130
    case 58 => 14.82817437
    case 57 => 18.18626357
    case 56 => 21.02939493
    case 55 => 23.54504487
    case 54 => 25.82924707
    case 53 => 27.93898710
    case 52 => 29.91135686
    case 51 => 31.77209708
    case 50 => 33.53993436
    case 49 => 35.22899598
    case 48 => 36.85025108
    case 47 => 38.41241892
    case 46 => 39.92256684
    case 45 => 41.38651832
    case 44 => 42.80914012
    case 43 => 44.19454951
    case 42 => 45.54626723
    case 41 => 46.86733252
    case 40 => 48.16039128
    case 39 => 49.42776439
    case 38 => 50.67150166
    case 37 => 51.89342469
    case 36 => 53.09516153
    case 35 => 54.27817472
    case 34 => 55.44378444
    case 33 => 56.59318756
    case 32 => 57.72747354
    case 31 => 58.84763776
    case 30 => 59.95459277
    case 29 => 61.04917774
    case 28 => 62.13216659
    case 27 => 63.20427479
    case 26 => 64.26616523
    case 25 => 65.31845310
    case 24 => 66.36171008
    case 23 => 67.39646774
    case 22 => 68.42322022
    case 21 => 69.44242631
    case 20 => 70.45451075
    case 19 => 71.45986473
    case 18 => 72.45884545
    case 17 => 73.45177442
    case 16 => 74.43893416
    case 15 => 75.42056257
    case 14 => 76.39684391
    case 13 => 77.36789461
    case 12 => 78.33374083
    case 11 => 79.29428225
    case 10 => 80.24923213
    case 9 => 81.19801349
    case 8 => 82.13956981
    case 7 => 83.07199445
    case 6 => 83.99173563
    case 5 => 84.89166191
    case 4 => 85.75541621
    case 3 => 86.53536998
    case _ => 87.00000000
  }

  /** n zones exist at lat exactly when |lat| lies between the transition
      latitudes of n + 1 and n. */
  ghost predicate HasZones(lat: real, n: int) {
    && 1 <= n <= 59
    && (2 <= n ==> Abs(lat) < Transition(n))
    && (n <= 58 ==> Transition(n + 1) <= Abs(lat))
  }

  /** The largest number in 2..top whose transition latitude exceeds a, else 1. */
  function ZonesBelow(a: real, top: int): (n: int)
    requires 1 <= top <= 59
    ensures 1 <= n <= top
    ensures 2 <= n ==> a < Transition(n)
    ensures forall k :: n < k <= top ==> Transition(k) <= a
  {
    if top == 1 then 1
    else if a < Transition(top) then top
    else ZonesBelow(a, top - 1)
  }

  function NL(lat: real): (n: int)
    ensures HasZones(lat, n)
  {
    ZonesBelow(Abs(lat), 59)
  }

  lemma TableStep(n: int)
    requires 2 <= n <= 58
    ensures 0.0 < Transition(n + 1) < Transition(n) <= 87.0
  {
  }

  lemma TableDecreases(a: int, b: int)
    requires 2 <= a <= b <= 59
    ensures Transition(b) <= Transition(a)
    decreases b - a
  {
    if a < b {
      TableStep(a);
      TableDecreases(a + 1, b);
    }
  }

  /** The table search is decided by the two neighbouring transition latitudes alone. */
  lemma NLCharacterised(lat: real, n: int)
    ensures HasZones(lat, n) <==> n == NL(lat)
  {
    if HasZones(lat, n) {
      var m := NL(lat);
      if m < n {
        TableDecreases(m + 1, n);
      } else if n < m {
        TableDecreases(n + 1, m);
      }
    }
  }

  lemma NLIsEven(lat: real)
    ensures NL(-lat) == NL(lat)
  {
    NLCharacterised(-lat, NL(lat));
  }

  lemma NLNonIncreasing(lat: real, lat': real)
    requires Abs(lat) <= Abs(lat')
    ensures NL(lat') <= NL(lat)
  {
    var n, n' := NL(lat), NL(lat');
    if n < n' {
      TableDecreases(n + 1, n');
    }
  }

  /** getNumLongitudeZone: search the table downwards from 59. */
  method GetNumLongitudeZone(lat: real) returns (n: int)
    ensures n == NL(lat)
  {
    var a := lat;
    if a < 0.0 {
      a := Abs(a);
    }
    var i := 59;
    while i >= 2
      invariant 1 <= i <= 59
      invariant forall k :: i < k <= 59 ==> Transition(k) <= a
    {
      if a < Transition(i) {
        NLCharacterised(lat, i);
        return i;
      }
      i := i - 1;
    }
    NLCharacterised(lat, 1);
    return 1;
  }
}
