/**
  The records the save format is built from: a sub-chunk (one slab of a chunk),
  a region (the sub-chunks of the chunk columns it groups) and the world
  header. Positions that the source keeps in float vectors always hold whole
  numbers and are modelled as integers.
*/
module SaveInfo {
  import opened VoxelMap

  datatype Vec2i = Vec2i(x: int, y: int)
  datatype Vec3i = Vec3i(x: int, y: int, z: int)

  /** A sub-chunk: `position` is (chunk X, chunk Y, slab index) inside its region. */
  datatype ChunkInformation = ChunkInformation(
    position: Vec3i,
    containedVoxel: seq<Entry>,
    numOfVoxel: int,
    bCompressed: bool,
    removedVoxel: int,
    bValidInformation: bool)

  datatype RegionInformation = RegionInformation(
    position: Vec2i,
    containedChunks: seq<ChunkInformation>,
    numOfChunks: int,
    bValidInformation: bool)

  /** `containedRegions` is a TSet: a duplicate-free sequence in insertion order. */
  datatype WorldInformation = WorldInformation(
    name: string,
    containedRegions: seq<Vec2i>,
    numOfRegions: int,
    regionWidth: int,
    chunkWidth: int,
    chunkHeight: int,
    bValidInformation: bool)

  /** A freshly constructed `FChunkInformation`. */
  const DefaultChunk := ChunkInformation(Vec3i(0, 0, 0), [], 0, false, 0, false)

  /** A freshly constructed `FRegionInformation`. */
  const DefaultRegion := RegionInformation(Vec2i(0, 0), [], 0, false)

  /** A freshly constructed `FWorldInformation`. */
  const DefaultWorld := WorldInformation("DefaultWorld", [], 0, 32, 16, 128, false)

  /** No region coordinate occurs twice, as in a TSet. */
  ghost predicate NoDuplicates(s: seq<Vec2i>) {
    forall i, j :: 0 <= i < j < |s| ==> s[i] != s[j]
  }

  /** `TSet::Add`: a coordinate already present leaves the set unchanged. */
  function SetAdd(s: seq<Vec2i>, p: Vec2i): seq<Vec2i> {
    if p in s then s else s + [p]
  }

  /** Adding keeps the set free of duplicates, and adds exactly `p`. */
  lemma SetAddSpec(s: seq<Vec2i>, p: Vec2i)
    ensures NoDuplicates(s) ==> NoDuplicates(SetAdd(s, p))
    ensures p in SetAdd(s, p) && forall q :: q in SetAdd(s, p) <==> q in s || q == p
  {
  }
}
