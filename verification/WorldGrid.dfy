/** The 75 rectangles of lib/tile_grid/tiles.go and the proof that they partition the world. */
module WorldGrid {

  datatype Rect = Rect(south: int, east: int, north: int, west: int)

  const TILES := 75

  function Grid(k: nat): (r: Rect)
    requires k < TILES
    ensures -90 <= r.south < r.north <= 90 && -180 <= r.west < r.east <= 180
  {
    match k
    case 0 => Rect(60, 0, 90, -126)
    case 1 => Rect(60, 150, 90, 0)
    case 2 => Rect(-90, -126, 90, -180)
    case 3 => Rect(45, -120, 51, -126)
    case 4 => Rect(51, -69, 60, -126)
    case 5 => Rect(45, -114, 51, -120)
    case 6 => Rect(45, -102, 51, -114)
    case 7 => Rect(45, -90, 51, -102)
    case 8 => Rect(45, -75, 51, -90)
    case 9 => Rect(45, -69, 51, -75)
    case 10 => Rect(42, 18, 48, 12)
    case 11 => Rect(42, 24, 48, 18)
    case 12 => Rect(48, 24, 54, 18)
    case 13 => Rect(54, 24, 60, 12)
    case 14 => Rect(54, 12, 60, 3)
    case 15 => Rect(54, 3, 60, -9)
    case 16 => Rect(42, 0, 48, -9)
    case 17 => Rect(42, 51, 51, 24)
    case 18 => Rect(51, 51, 60, 24)
    case 19 => Rect(30, 90, 60, 51)
    case 20 => Rect(30, 120, 60, 90)
    case 21 => Rect(30, 129, 39, 120)
    case 22 => Rect(30, 138, 39, 129)
    case 23 => Rect(30, 150, 39, 138)
    case 24 => Rect(39, 150, 60, 120)
    case 25 => Rect(9, 111, 21, 90)
    case 26 => Rect(21, 111, 30, 90)
    case 27 => Rect(9, 129, 24, 111)
    case 28 => Rect(24, 120, 30, 111)
    case 29 => Rect(24, 129, 30, 120)
    case 30 => Rect(9, 150, 30, 129)
    case 31 => Rect(9, 69, 30, 51)
    case 32 => Rect(9, 90, 30, 69)
    case 33 => Rect(-90, 51, -42, -42)
    case 34 => Rect(-90, 111, 9, 51)
    case 35 => Rect(-90, 129, -18, 111)
    case 36 => Rect(-18, 160, 9, 111)
    case 37 => Rect(-90, -90, 9, -126)
    case 38 => Rect(-42, 51, 9, -30)
    case 39 => Rect(-9, -42, 9, -90)
    case 40 => Rect(-90, -63, -9, -90)
    case 41 => Rect(-21, -42, -9, -63)
    case 42 => Rect(-90, -42, -21, -63)
    case 43 => Rect(-42, -30, 9, -42)
    case 44 => Rect(9, -117, 33, -126)
    case 45 => Rect(9, -102, 30, -117)
    case 46 => Rect(9, -90, 27, -102)
    case 47 => Rect(24, -84, 30, -90)
    case 48 => Rect(9, -69, 18, -90)
    case 49 => Rect(18, -69, 24, -90)
    case 50 => Rect(36, 18, 42, 6)
    case 51 => Rect(36, 30, 42, 18)
    case 52 => Rect(9, 6, 42, -9)
    case 53 => Rect(9, 30, 36, 6)
    case 54 => Rect(9, 51, 42, 30)
    case 55 => Rect(24, -69, 39, -75)
    case 56 => Rect(9, -33, 30, -69)
    case 57 => Rect(30, -33, 60, -69)
    case 58 => Rect(9, -9, 30, -33)
    case 59 => Rect(30, -9, 60, -33)
    case 60 => Rect(33, -117, 45, -126)
    case 61 => Rect(30, -102, 45, -117)
    case 62 => Rect(27, -90, 45, -102)
    case 63 => Rect(30, -84, 45, -90)
    case 64 => Rect(24, -75, 45, -84)
    case 65 => Rect(39, -69, 45, -75)
    case 66 => Rect(42, 12, 48, 6)
    case 67 => Rect(42, 6, 48, 0)
    case 68 => Rect(48, 18, 54, 12)
    case 69 => Rect(48, 12, 54, 6)
    case 70 => Rect(48, 6, 54, 0)
    case 71 => Rect(48, 0, 54, -9)
    case 72 => Rect(-90, 160, -18, 129)
    case 73 => Rect(-90, 180, 9, 160)
    case _ => Rect(9, 180, 90, 150)
  }

  /** A tile has its northern and western edge, and at the south pole the southern one. */
  predicate Contains(r: Rect, lat: real, lon: real) {
    var s := if r.south == -90 then r.south as real - 0.1 else r.south as real;
    lat <= r.north as real && lat > s && lon >= r.west as real && lon < r.east as real
  }

  ghost predicate InTile(k: nat, lat: real, lon: real) {
    k < TILES && Contains(Grid(k), lat, lon)
  }

  predicate InWorld(lat: real, lon: real) {
    -90.0 <= lat <= 90.0 && -180.0 <= lon < 180.0
  }

  /** The world cut in two along whole edges, again and again, until every piece is a tile. */
  function Place(lat: real, lon: real): nat {
    if lon < -126.0 then 2
    else if lat <= 9.0 then
      if lon < -42.0 then
        if lon < -90.0 then 37
        else if lat <= -9.0 then
          if lon < -63.0 then 40
          else if lat <= -21.0 then 42 else 41
        else 39
      else
        if lon < 111.0 then
          if lon < 51.0 then
            if lat <= -42.0 then 33
            else if lon < -30.0 then 43 else 38
          else 34
        else
          if lon < 160.0 then
            if lat <= -18.0 then
              if lon < 129.0 then 35 else 72
            else 36
          else 73
    else
      if lon < 150.0 then
        if lat <= 60.0 then
          if lon < -9.0 then
            if lon < -69.0 then
              if lat <= 45.0 then
                if lon < -90.0 then
                  if lon < -117.0 then
                    if lat <= 33.0 then 44 else 60
                  else
                    if lon < -102.0 then
                      if lat <= 30.0 then 45 else 61
                    else
                      if lat <= 27.0 then 46 else 62
                else
                  if lat <= 24.0 then
                    if lat <= 18.0 then 48 else 49
                  else
                    if lon < -84.0 then
                      if lat <= 30.0 then 47 else 63
                    else
                      if lon < -75.0 then 64
                      else if lat <= 39.0 then 55 else 65
              else
                if lat <= 51.0 then
                  if lon < -102.0 then
                    if lon < -120.0 then 3
                    else if lon < -114.0 then 5 else 6
                  else
                    if lon < -90.0 then 7
                    else if lon < -75.0 then 8 else 9
                else 4
            else
              if lat <= 30.0 then
                if lon < -33.0 then 56 else 58
              else
                if lon < -33.0 then 57 else 59
          else
            if lon < 51.0 then
              if lat <= 42.0 then
                if lon < 6.0 then 52
                else if lon < 30.0 then
                  if lat <= 36.0 then 53
                  else if lon < 18.0 then 50 else 51
                else 54
              else
                if lon < 12.0 then
                  if lat <= 48.0 then
                    if lon < 0.0 then 16
                    else if lon < 6.0 then 67 else 66
                  else
                    if lat <= 54.0 then
                      if lon < 0.0 then 71
                      else if lon < 6.0 then 70 else 69
                    else
                      if lon < 3.0 then 15 else 14
                else
                  if lon < 24.0 then
                    if lat <= 48.0 then
                      if lon < 18.0 then 10 else 11
                    else
                      if lat <= 54.0 then
                        if lon < 18.0 then 68 else 12
                      else 13
                  else
                    if lat <= 51.0 then 17 else 18
            else
              if lat <= 30.0 then
                if lon < 111.0 then
                  if lon < 90.0 then
                    if lon < 69.0 then 31 else 32
                  else
                    if lat <= 21.0 then 25 else 26
                else
                  if lon < 129.0 then
                    if lat <= 24.0 then 27
                    else if lon < 120.0 then 28 else 29
                  else 30
              else
                if lon < 120.0 then
                  if lon < 90.0 then 19 else 20
                else
                  if lat <= 39.0 then
                    if lon < 129.0 then 21
                    else if lon < 138.0 then 22 else 23
                  else 24
        else
          if lon < 0.0 then 0 else 1
      else 74
  }

  lemma PlaceSouth(lat: real, lon: real)
    requires InWorld(lat, lon) && lon >= -126.0 && lat <= 9.0
    ensures InTile(Place(lat, lon), lat, lon)
  {
  }

  lemma PlaceAmericas(lat: real, lon: real)
    requires InWorld(lat, lon) && -126.0 <= lon < -69.0 && 9.0 < lat <= 60.0
    ensures InTile(Place(lat, lon), lat, lon)
  {
  }

  lemma PlaceEurope(lat: real, lon: real)
    requires InWorld(lat, lon) && -9.0 <= lon < 51.0 && 9.0 < lat <= 60.0
    ensures InTile(Place(lat, lon), lat, lon)
  {
  }

  lemma PlaceAsia(lat: real, lon: real)
    requires InWorld(lat, lon) && 51.0 <= lon < 150.0 && 9.0 < lat <= 60.0
    ensures InTile(Place(lat, lon), lat, lon)
  {
  }

  lemma PlaceElsewhere(lat: real, lon: real)
    requires InWorld(lat, lon)
    requires lon < -126.0 || (lat > 9.0 && (-69.0 <= lon < -9.0 || lon >= 150.0 || lat > 60.0))
    ensures InTile(Place(lat, lon), lat, lon)
  {
  }

  lemma PlaceInTile(lat: real, lon: real)
    requires InWorld(lat, lon)
    ensures InTile(Place(lat, lon), lat, lon)
  {
    if lon < -126.0 || (lat > 9.0 && (-69.0 <= lon < -9.0 || lon >= 150.0 || lat > 60.0)) {
      PlaceElsewhere(lat, lon);
    } else if lat <= 9.0 {
      PlaceSouth(lat, lon);
    } else if lon < -69.0 {
      PlaceAmericas(lat, lon);
    } else if lon < 51.0 {
      PlaceEurope(lat, lon);
    } else {
      PlaceAsia(lat, lon);
    }
  }

  lemma InTileTo30(k: nat, lat: real, lon: real)
    requires k < 30 && InTile(k, lat, lon)
    ensures k == Place(lat, lon)
  {
  }

  lemma InTileTo60(k: nat, lat: real, lon: real)
    requires 30 <= k < 60 && InTile(k, lat, lon)
    ensures k == Place(lat, lon)
  {
  }

  lemma InTileTo75(k: nat, lat: real, lon: real)
    requires 60 <= k && InTile(k, lat, lon)
    ensures k == Place(lat, lon)
  {
  }

  lemma InTileIsPlace(k: nat, lat: real, lon: real)
    requires InTile(k, lat, lon)
    ensures k == Place(lat, lon)
  {
    if k < 30 {
      InTileTo30(k, lat, lon);
    } else if k < 60 {
      InTileTo60(k, lat, lon);
    } else {
      InTileTo75(k, lat, lon);
    }
  }

  /** No two tiles overlap, on the whole plane. */
  lemma TilesDisjoint(j: nat, k: nat, lat: real, lon: real)
    requires InTile(j, lat, lon) && InTile(k, lat, lon)
    ensures j == k
  {
    InTileIsPlace(j, lat, lon);
    InTileIsPlace(k, lat, lon);
  }

  /** Every place on earth lies in exactly one tile. */
  lemma Partition(lat: real, lon: real)
    requires InWorld(lat, lon)
    ensures exists k: nat :: InTile(k, lat, lon) && forall j: nat :: InTile(j, lat, lon) ==> j == k
  {
    PlaceInTile(lat, lon);
    forall j: nat | InTile(j, lat, lon)
      ensures j == Place(lat, lon)
    {
      InTileIsPlace(j, lat, lon);
    }
  }
}
