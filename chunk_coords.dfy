/**
  The chunk-to-region transform, as `AChunkActor::Initialize` and
  `AChunkManager::SpawnChunk` compute it with C++ integer division, which
  truncates toward zero.
*/
module ChunkCoords {
  import opened SaveInfo
  import ByteFields

  function Abs(v: int): nat {
    if v < 0 then -v else v
  }

  /** `FMath::Sign`. */
  function Sign(v: int): int {
    if v > 0 then 1 else if v < 0 then -1 else 0
  }

  /** C++ `a / b`: the quotient truncated toward zero. */
  function TruncDiv(a: int, b: int): int
    requires b != 0
  {
    var q := Abs(a) / Abs(b);
    if (a < 0) != (b < 0) then -q else q
  }

  /** C++ `a % b`: the remainder takes the sign of `a`. */
  function TruncMod(a: int, b: int): int
    requires b != 0
  {
    a - b * TruncDiv(a, b)
  }

  /** The region of chunk coordinate `c`: a negative `c` is shifted by `1 - r` before dividing. */
  function RegionIndex(c: int, r: int): int
    requires r != 0
  {
    TruncDiv(if c < 0 then c - r + 1 else c, r)
  }

  /** The index inside the region: `c` times the region's sign (1 for region 0), remainder by `r`. */
  function LocalIndex(c: int, region: int, r: int): int
    requires r != 0
  {
    var sign := if Sign(region) == 0 then 1 else Sign(region);
    TruncMod(sign * c, r)
  }

  /** For a positive divisor, truncating division of a non-negative number is Dafny's. */
  lemma TruncOfNonNegative(a: int, b: int)
    requires a >= 0 && b > 0
    ensures TruncDiv(a, b) == a / b && TruncMod(a, b) == a % b
  {
  }

  /** For a positive divisor, the region is the floor of `c / r`. */
  lemma RegionIndexIsFloor(c: int, r: int)
    requires r > 0
    ensures RegionIndex(c, r) == c / r
  {
    if c < 0 {
      var q, m := c / r, c % r;
      ByteFields.DivModUnique(r - 1 - c, r, -q, r - 1 - m);
    }
  }

  /**
    For a positive region size, the index inside the region is `|c| mod r`:
    a negative coordinate counts from the region's upper end, not its lower.
  */
  lemma LocalIndexIsAbsMod(c: int, r: int)
    requires r > 0
    ensures LocalIndex(c, RegionIndex(c, r), r) == Abs(c) % r
    ensures 0 <= LocalIndex(c, RegionIndex(c, r), r) < r
  {
    RegionIndexIsFloor(c, r);
    if c < 0 {
      assert c / r < 0;
      TruncOfNonNegative(-c, r);
    } else {
      assert c / r >= 0;
      TruncOfNonNegative(c, r);
    }
  }

  // ---------------------------------------------------------------------------
  // `AChunkActor::Initialize`

  /** The chunk indices `Initialize` leaves: X's index is computed from Y, and Y is left as given. */
  function InitializedIndices(position: Vec2i, r: int): Vec2i
    requires r != 0
  {
    Vec2i(LocalIndex(position.y, RegionIndex(position.y, r), r), position.y)
  }

  /** The chunk indices with each axis reduced on its own axis. */
  function CorrectedIndices(position: Vec2i, r: int): Vec2i
    requires r != 0
  {
    Vec2i(LocalIndex(position.x, RegionIndex(position.x, r), r), LocalIndex(position.y, RegionIndex(position.y, r), r))
  }

  /** The written transform loses X: chunk (3, 5) gets indices (5, 5) instead of (3, 5). */
  lemma InitializedIndicesLoseX()
    ensures InitializedIndices(Vec2i(3, 5), 16) == Vec2i(5, 5)
    ensures CorrectedIndices(Vec2i(3, 5), 16) == Vec2i(3, 5)
  {
    TruncOfNonNegative(3, 16);
    TruncOfNonNegative(5, 16);
  }

  /** The corrected indices reduce each axis inside its region. */
  lemma CorrectedIndicesPerAxis(position: Vec2i, r: int)
    requires r > 0
    ensures CorrectedIndices(position, r) == Vec2i(Abs(position.x) % r, Abs(position.y) % r)
  {
    LocalIndexIsAbsMod(position.x, r);
    LocalIndexIsAbsMod(position.y, r);
  }

  /** A chunk of region (0, 0) keeps its coordinates as its corrected indices. */
  lemma CorrectedIndicesInFirstRegion(position: Vec2i, r: int)
    requires 0 <= position.x < r && 0 <= position.y < r
    ensures CorrectedIndices(position, r) == position
  {
    CorrectedIndicesPerAxis(position, r);
    ByteFields.DivModUnique(position.x, r, 0, position.x);
    ByteFields.DivModUnique(position.y, r, 0, position.y);
  }

  // ---------------------------------------------------------------------------
  // `AChunkManager::SpawnChunk(position, information)`

  /** Regions are 16 chunks wide in the chunk manager. */
  const ManagerRegionSize := 16

  /** The chunk coordinates `SpawnChunk` places a loaded chunk at: `local + 16 * region` per axis. */
  function SpawnPlacement(position: Vec2i): Vec2i {
    var rx, ry := RegionIndex(position.x, ManagerRegionSize), RegionIndex(position.y, ManagerRegionSize);
    Vec2i(LocalIndex(position.x, rx, ManagerRegionSize) + ManagerRegionSize * rx,
          LocalIndex(position.y, ry, ManagerRegionSize) + ManagerRegionSize * ry)
  }

  /** A chunk at non-negative coordinates is placed where it is. */
  lemma SpawnPlacementNonNegative(position: Vec2i)
    requires position.x >= 0 && position.y >= 0
    ensures SpawnPlacement(position) == position
  {
    LocalIndexIsAbsMod(position.x, ManagerRegionSize);
    LocalIndexIsAbsMod(position.y, ManagerRegionSize);
    RegionIndexIsFloor(position.x, ManagerRegionSize);
    RegionIndexIsFloor(position.y, ManagerRegionSize);
  }

  /** A chunk at negative coordinates is mirrored inside its region: chunk -1 is placed at -15. */
  lemma SpawnPlacementMirrors()
    ensures SpawnPlacement(Vec2i(-1, 0)) == Vec2i(-15, 0)
  {
    LocalIndexIsAbsMod(-1, ManagerRegionSize);
    RegionIndexIsFloor(-1, ManagerRegionSize);
    SpawnPlacementNonNegative(Vec2i(0, 0));
  }

  /** The index inside the region counted from the region's lower end. */
  function FloorLocalIndex(c: int, r: int): int
    requires r != 0
  {
    c - r * RegionIndex(c, r)
  }

  function CorrectedSpawnPlacement(position: Vec2i): Vec2i {
    var rx, ry := RegionIndex(position.x, ManagerRegionSize), RegionIndex(position.y, ManagerRegionSize);
    Vec2i(FloorLocalIndex(position.x, ManagerRegionSize) + ManagerRegionSize * rx,
          FloorLocalIndex(position.y, ManagerRegionSize) + ManagerRegionSize * ry)
  }

  /** With the index counted from the region's lower end, it lies in `[0, r)` and every chunk is placed where it is. */
  lemma CorrectedSpawnPlacementExact(position: Vec2i)
    ensures 0 <= FloorLocalIndex(position.x, ManagerRegionSize) < ManagerRegionSize
    ensures 0 <= FloorLocalIndex(position.y, ManagerRegionSize) < ManagerRegionSize
    ensures CorrectedSpawnPlacement(position) == position
  {
    RegionIndexIsFloor(position.x, ManagerRegionSize);
    RegionIndexIsFloor(position.y, ManagerRegionSize);
  }
}
