/** Finding the tile of a position (lib/tile_grid/grid.go): by search, and in a table with one
    entry for every square degree. */
module TileLookup {
  import opened WorldGrid

  /** Blank is the empty name, Unknown is "tileUnknown", Tile(k) is "tile" and the number k. */
  datatype Name = Blank | Unknown | Tile(k: nat)

  /** InGridLocation */
  predicate InGridLocation(lat: real, lon: real, name: Name) {
    name.Tile? && name.k < TILES && Contains(Grid(name.k), lat, lon)
  }

  /** What a search may answer: a name that fits, or the one that says that there is none. */
  ghost predicate Found(lat: real, lon: real, name: Name) {
    if lat < -90.0 || lat > 90.0 || lon < -180.0 || lon > 180.0 then name == Blank
    else if name == Unknown then forall k :: !InTile(k, lat, lon)
    else InGridLocation(lat, lon, name)
  }

  /** The answer does not depend on the order in which the tiles are tried. */
  lemma SearchDeterministic(lat: real, lon: real, a: Name, b: Name)
    requires Found(lat, lon, a) && Found(lat, lon, b)
    ensures a == b
    ensures a == Unknown <==> -90.0 <= lat <= 90.0 && lon == 180.0
  {
    if InWorld(lat, lon) {
      PlaceInTile(lat, lon);
    }
    if a.Tile? {
      InTileIsPlace(a.k, lat, lon);
    }
    if b.Tile? {
      InTileIsPlace(b.k, lat, lon);
    }
  }

  predicate IsTile(k: nat) {
    k < TILES
  }

  /** lookupTileManual: try the tiles one by one, in whatever order the map gives them. */
  method LookupTileManual(lat: real, lon: real) returns (name: Name)
    ensures Found(lat, lon, name)
  {
    if lat < -90.0 || lat > 90.0 || lon < -180.0 || lon > 180.0 {
      return Blank;
    }
    var untried := set k: nat | k < TILES && IsTile(k);
    while untried != {}
      invariant forall k :: k in untried ==> IsTile(k)
      invariant forall k: nat :: IsTile(k) && k !in untried ==> !InTile(k, lat, lon)
      decreases untried
    {
      var k :| k in untried;
      if Contains(Grid(k), lat, lon) {
        return Tile(k);
      }
      untried := untried - {k};
    }
    return Unknown;
  }

  /** The tile of the south-western corner of the square degree of a position. */
  function CornerTile(lat: int, lon: int): nat {
    Place(lat as real, lon as real)
  }

  method CornerName(lat: int, lon: int) returns (name: Name)
    requires -90 <= lat < 90 && -180 <= lon < 180
    ensures name == Tile(CornerTile(lat, lon))
  {
    name := LookupTileManual(lat as real, lon as real);
    PlaceInTile(lat as real, lon as real);
    SearchDeterministic(lat as real, lon as real, name, Tile(CornerTile(lat, lon)));
  }

  class PreCalculated {
    const preCalcGrid: array2<Name>

    ghost predicate Valid()
      reads preCalcGrid
    {
      && preCalcGrid.Length0 == 180 && preCalcGrid.Length1 == 360
      && forall i, j :: 0 <= i < 180 && 0 <= j < 360 ==> preCalcGrid[i, j] == Tile(CornerTile(i - 90, j - 180))
    }

    /** init */
    constructor ()
      ensures Valid()
    {
      preCalcGrid := new Name[180, 360];
      new;
      for lat := -90 to 90
        invariant forall i, j :: 0 <= i < lat + 90 && 0 <= j < 360 ==> preCalcGrid[i, j] == Tile(CornerTile(i - 90, j - 180))
      {
        for lon := -180 to 180
          invariant forall i, j :: 0 <= i < lat + 90 && 0 <= j < 360 ==> preCalcGrid[i, j] == Tile(CornerTile(i - 90, j - 180))
          invariant forall i, j :: i == lat + 90 && 0 <= j < lon + 180 ==> preCalcGrid[i, j] == Tile(CornerTile(i - 90, j - 180))
        {
          var name := CornerName(lat, lon);
          preCalcGrid[lat + 90, lon + 180] := name;
        }
      }
    }

    /** lookupTilePreCalc */
    method LookupTile(lat: real, lon: real) returns (name: Name)
      requires Valid()
      ensures InWorld(lat, lon) && lat < 90.0 ==> name == Tile(CornerTile(lat.Floor, lon.Floor))
      ensures !(InWorld(lat, lon) && lat < 90.0) ==> name == Unknown
    {
      var latInt := lat.Floor;
      var lonInt := lon.Floor;
      if latInt < -90 || latInt >= 90 || lonInt < -180 || lonInt >= 180 {
        return Unknown;
      }
      return preCalcGrid[latInt + 90, lonInt + 180];
    }
  }

  /** A tile borders on another in the south at a longitude. */
  predicate SouthernNeighbour(q: Rect, r: Rect, lon: real) {
    q.north == r.south && q.west as real <= lon < q.east as real
  }

  lemma FloorAtLeast(x: real, n: int)
    ensures x.Floor >= n <==> x >= n as real
    ensures x.Floor as real <= x
  {
  }

  lemma CornerInside(r: Rect, lat: real, lon: real, a: int, b: int)
    requires Contains(r, lat, lon) && a as real <= lat && b as real <= lon && -90 <= a && r.west <= b
    ensures Contains(r, a as real, b as real) <==> r.south == -90 || a > r.south
  {
    if r.south == -90 {
      assert a as real >= -90.0;
    } else {
      assert a > r.south <==> a as real > r.south as real;
    }
  }

  /** The tile of the corner ends at the border, or it would overlap just north of it. */
  lemma CornerBelow(q: Rect, r: Rect, lat: real, lon: real, b: int) returns (above: real)
    requires Contains(r, lat, lon) && r.south != -90
    requires Contains(q, r.south as real, b as real) && b as real <= lon < b as real + 1.0
    ensures SouthernNeighbour(q, r, lon) || (Contains(q, above, lon) && Contains(r, above, lon))
  {
    above := if lat <= q.north as real then lat else q.north as real;
    assert b < q.east;
    assert lon < q.east as real;
    assert q.north >= r.south;
  }

  /** When the table gives the tile that the position is in, and what it gives otherwise: the
      tile that borders on it in the south, for the first degree north of the border. */
  lemma TableExact(lat: real, lon: real, k: nat)
    requires InWorld(lat, lon) && lat < 90.0 && InTile(k, lat, lon)
    ensures var q := CornerTile(lat.Floor, lon.Floor);
            && q < TILES
            && (q == k <==> Grid(k).south == -90 || lat.Floor > Grid(k).south)
            && (q != k ==> SouthernNeighbour(Grid(q), Grid(k), lon))
  {
    var q := CornerTile(lat.Floor, lon.Floor);
    PlaceInTile(lat.Floor as real, lon.Floor as real);
    FloorAtLeast(lat, -90);
    FloorAtLeast(lat, Grid(k).south);
    FloorAtLeast(lon, Grid(k).west);
    CornerInside(Grid(k), lat, lon, lat.Floor, lon.Floor);
    if Contains(Grid(k), lat.Floor as real, lon.Floor as real) {
      InTileIsPlace(k, lat.Floor as real, lon.Floor as real);
    } else {
      var above := CornerBelow(Grid(q), Grid(k), lat, lon, lon.Floor);
      if Contains(Grid(q), above, lon) && Contains(Grid(k), above, lon) {
        TilesDisjoint(q, k, above, lon);
      }
    }
  }

  /** So the table and the rectangles contradict each other on whole belts: both directions. */
  lemma TableAgreesWithRectangles(lat: real, lon: real)
    requires InWorld(lat, lon) && lat < 90.0
    ensures InGridLocation(lat, lon, Tile(CornerTile(lat.Floor, lon.Floor)))
       <==> forall k: nat :: InTile(k, lat, lon) ==> Grid(k).south == -90 || lat.Floor > Grid(k).south
  {
    var k := Place(lat, lon);
    PlaceInTile(lat, lon);
    TableExact(lat, lon, k);
    forall j: nat | InTile(j, lat, lon)
      ensures j == k
    {
      InTileIsPlace(j, lat, lon);
    }
  }

  /** Half a degree north of a border: the position is in tile 31, the table says tile 34. */
  lemma TableWitness()
    ensures InTile(31, 9.5, 60.0) && CornerTile((9.5).Floor, (60.0).Floor) == 34
    ensures !InGridLocation(9.5, 60.0, Tile(CornerTile((9.5).Floor, (60.0).Floor)))
  {
    assert (9.5).Floor == 9 && (60.0).Floor == 60;
    TilesDisjoint(31, Place(9.5, 60.0), 9.5, 60.0);
    PlaceInTile(9.5, 60.0);
    PlaceInTile(9.0, 60.0);
  }

  /** The places that the tests of the repository ask for: by the table and by the rectangles. */
  lemma KnownPlaces()
    ensures CornerTile((-31.952162).Floor, (115.943482).Floor) == 35 && InTile(35, -31.952162, 115.943482)
    ensures CornerTile((53.253113).Floor, (179.723145).Floor) == 74 && InTile(74, 53.253113, 179.723145)
    ensures CornerTile((-16.0).Floor, (1.0).Floor) == 38 && InTile(38, -16.0, 1.0)
  {
    assert (-31.952162).Floor == -32 && (115.943482).Floor == 115;
    assert (53.253113).Floor == 53 && (179.723145).Floor == 179;
    assert (-16.0).Floor == -16 && (1.0).Floor == 1;
  }
}
