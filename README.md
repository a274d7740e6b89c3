# Voxel world: chunks, mesher, save format, save and load

This project models the core of an Unreal Engine voxel-world plugin in Dafny
and proves properties of the model.

- **Chunk voxel store** (`AChunkActor`). A chunk keeps a flat grid of voxel
  ids, indexed `x + y·w + z·w²`.
- **Chunk life cycle.** A chunk is initialised with its sizes and region. It
  is filled either from a map or from layered noise. A single voxel can be
  replaced in it.
- **Face-culling mesher** (`UpdateMesh`). It gives every visible face four
  vertices, six triangle indices, four normals, four UVs and four colours,
  collected per voxel id.
- **Save format** (`ReadWriteManager`). This is a byte-exact little-endian
  codec. It writes and reads a region, which holds sub-chunks, and the world
  header, which holds the region set, the name and the sizes. It also builds
  the file names of a save.
- **Save** (`FSaveManager`). It cuts every chunk marked for saving into
  slabs. It takes a histogram per slab and elides the slab's most frequent id
  when that id fills more than 40% of the slab. It groups the sub-chunks by
  region, then writes the region files and the world file.
- **Load** (`FLoadManager`). It reads the world file and the region files.
  It fills the elided voxels back in, shifts each sub-chunk to its height and
  stacks every eight sub-chunks into one chunk column.
- **Chunk manager** (`AChunkManager`). It reindexes the asset list, spawns
  the start area of a new world, builds the world header of a save and
  clears the chunks' save flags afterwards.

**How the model represents the source**

- Objects whose fields the source updates in place are classes:
  `ChunkActor`, `SaveManager`, `LoadManager` and `ChunkManager`.
- Their loops are methods with loop invariants. Each method is proved
  against a specification function, and lemmas state what those functions
  promise.
- The records of the save format are datatypes.
- A `TMap<int, int>` is a sequence of entries with unique keys, in insertion
  order. `Add` overwrites a present key in place and appends a new one, and
  `Remove` deletes the entry.
- A `TSet` of region positions is a duplicate-free sequence in insertion
  order.
- Bytes are the `byte` newtype (0..255).
- C++ truncating `/` and `%` are written out (`TruncDiv`, `TruncMod`), as is
  the narrowing of an int to `uint8`.

**Files and zlib.** The save directory is a map from path to the archive
bytes that a file decompresses to, or to `Corrupt` when the file cannot be
read or decompressed. A write fails when its path is in a set `failing`.

**Defaults.** `SaveInfo.DefaultChunk`, `SaveInfo.DefaultRegion` and
`SaveInfo.DefaultWorld` are the declared defaults of the three records in
`Source/VoxelWorld/SaveGames/ReadWriteManager.h:11-71`. For example, the
default world is named "DefaultWorld" and has region width 32, chunk width 16
and height 128, and it is invalid.

**Local indices of negative chunks.** For a chunk at a negative coordinate
the code computes the index inside the region as `|c| mod r`
(`ChunkActor.cpp:60-66`, `ChunkManager.cpp:163-169`), not the floor
modulus. Chunk -1 in regions of 16 therefore gets local index 1, where a
floor-based index would give 15. The model follows the code
(`ChunkCoords.LocalIndexIsAbsMod`), and the placement this leads to is
recorded under "Findings" with a corrected form proved beside it.

## Model

| member | source | states |
|---|---|---|
| ByteFields.Bytes2Value | Source/VoxelWorld/SaveGames/ReadWriteManager.cpp:61-64 | the two little-endian bytes of a count or index hold the value modulo 2^16 |
| ByteFields.Bytes3Value | Source/VoxelWorld/SaveGames/ReadWriteManager.cpp:78-85 | the three bytes of a voxel value hold it modulo 2^24 |
| ByteFields.Bytes4Value | Source/VoxelWorld/SaveGames/ReadWriteManager.cpp:19-22 | the four bytes of an int32 hold it modulo 2^32 |
| ByteFields.ReadBytes2 | Source/VoxelWorld/SaveGames/ReadWriteManager.cpp:113-117 | reading back two written bytes (`lo + (hi << 8)`) gives the value modulo 2^16 |
| ByteFields.ReadBytes3 | Source/VoxelWorld/SaveGames/ReadWriteManager.cpp:146-154 | reading back three written bytes gives the value modulo 2^24 |
| ByteFields.ReadInt32 | Source/VoxelWorld/SaveGames/ReadWriteManager.cpp:105-110 | reading back an int32 gives the value wrapped to 32-bit two's complement |
| ByteFields.Wrap32Identity | Source/VoxelWorld/SaveGames/ReadWriteManager.cpp:105-110 | a value inside the int32 range survives the wrap unchanged |
| ByteFields.DivModUnique | Source/VoxelWorld/SaveGames/ReadWriteManager.cpp:52-57 | the quotient and remainder of the byte split are unique, which is what makes the fields decodable |
| VoxelMap.IndexOf | Source/VoxelWorld/SaveGames/ReadWriteManager.h:17 | the result is -1 or a position in the map holding the key |
| VoxelMap.IndexOfFirst | Source/VoxelWorld/SaveGames/ReadWriteManager.h:17 | the position found is the first entry with the key |
| VoxelMap.IndexOfMissing | Source/VoxelWorld/SaveGames/ReadWriteManager.h:17 | when the key is not found, no entry has it |
| VoxelMap.NotContains | Source/VoxelWorld/SaveGames/ReadWriteManager.h:17 | a key that no entry has is not contained |
| VoxelMap.ContainsIff | Source/VoxelWorld/SaveGames/ReadWriteManager.h:17 | `Contains` holds exactly when some entry has the key |
| VoxelMap.GetAt | Source/VoxelWorld/SaveGames/ReadWriteManager.h:17 | with unique keys, looking up the key of any entry gives that entry's value |
| VoxelMap.AddAt | Source/VoxelWorld/SaveGames/SaveManager.cpp:263 | after `Add(k, v)` exactly the old keys plus `k` are present; `k` maps to `v` and every other key keeps its value |
| VoxelMap.AddSpec | Source/VoxelWorld/SaveGames/SaveManager.cpp:263 | `Add` keeps keys unique, updates the map at `k` only and appends a key that was absent |
| VoxelMap.AddDistinct | Source/VoxelWorld/SaveGames/SaveManager.cpp:263 | `Add` keeps the keys unique |
| VoxelMap.AddKeeps | Source/VoxelWorld/SaveGames/LoadManager.cpp:153 | even with repeated keys, `Add` loses no key and holds the added one |
| VoxelMap.AddFresh | Source/VoxelWorld/SaveGames/SaveManager.cpp:263 | adding an absent key appends its pair at the end of the iteration order |
| VoxelMap.RemoveAt | Source/VoxelWorld/SaveGames/SaveManager.cpp:282 | after `Remove(k)` exactly the old keys other than `k` are present, with their values |
| VoxelMap.RemoveSpec | Source/VoxelWorld/SaveGames/LoadManager.cpp:160 | `Remove` keeps keys unique and deletes exactly one key from the map |
| VoxelMap.RemoveKeeps | Source/VoxelWorld/SaveGames/LoadManager.cpp:160 | even with repeated keys, removing one key keeps every other key |
| VoxelMap.DeleteAt | Source/VoxelWorld/SaveGames/LoadManager.cpp:160 | deleting one entry shifts the later entries down by one and keeps the keys unique |
| VoxelMap.DeleteKeeps | Source/VoxelWorld/SaveGames/LoadManager.cpp:160 | deleting one entry keeps every other key with its value |
| VoxelMap.DeleteDrops | Source/VoxelWorld/SaveGames/LoadManager.cpp:160 | deleting one entry adds no key and drops the deleted one |
| VoxelMap.AppendAt | Source/VoxelWorld/SaveGames/LoadManager.cpp:164 | `Append` is a union in which the appended map's value wins at each key |
| VoxelMap.AppendSpec | Source/VoxelWorld/SaveGames/LoadManager.cpp:164 | `Append` keeps keys unique, holds the keys of both maps, and takes the appended map's value where both have the key |
| VoxelMap.AppendDistinct | Source/VoxelWorld/SaveGames/LoadManager.cpp:164 | `Append` keeps the keys unique |
| VoxelMap.SnocAt | Source/VoxelWorld/SaveGames/LoadManager.cpp:164 | a map with unique keys is its front plus its last pair: it holds the front's keys and the last key, the last pair's value winning |
| SaveInfo.SetAddSpec | Source/VoxelWorld/SaveGames/ReadWriteManager.cpp:263 | `TSet::Add` keeps the set free of duplicates and adds exactly the new position |
| ReadWrite.ConvertRegionToBinary | Source/VoxelWorld/SaveGames/ReadWriteManager.cpp:8-91 | the archive written is the region's encoding: empty for an invalid region, otherwise the header and the chunk records |
| ReadWrite.EncodeChunksSnoc | Source/VoxelWorld/SaveGames/ReadWriteManager.cpp:31-87 | the chunk loop appends one more chunk record per chunk |
| ReadWrite.WriteChunk | Source/VoxelWorld/SaveGames/ReadWriteManager.cpp:31-87 | one chunk record: a lone zero flag byte for an invalid chunk, the removed voxel only when compressed |
| ReadWrite.WriteVoxels | Source/VoxelWorld/SaveGames/ReadWriteManager.cpp:67-86 | the entries are appended in the map's iteration order, with their index only when compressed |
| ReadWrite.ConvertBinaryToRegion | Source/VoxelWorld/SaveGames/ReadWriteManager.cpp:93-200 | the region read is the decoding of the archive: the default region for a zero flag, `None` when a read runs past the end |
| ReadWrite.ReadChunk | Source/VoxelWorld/SaveGames/ReadWriteManager.cpp:120-196 | one chunk record is read as `DecodeChunk` describes; an invalid record takes one byte |
| ReadWrite.ReadVoxels | Source/VoxelWorld/SaveGames/ReadWriteManager.cpp:164-192 | the entries are read in order; an uncompressed entry's key is its ordinal |
| ReadWrite.DecodeVoxels | Source/VoxelWorld/SaveGames/ReadWriteManager.cpp:164-192 | the reading position only moves forward and stays inside the archive |
| ReadWrite.DecodeChunk | Source/VoxelWorld/SaveGames/ReadWriteManager.cpp:120-196 | a record takes at least one byte and ends inside the archive |
| ReadWrite.DecodeChunks | Source/VoxelWorld/SaveGames/ReadWriteManager.cpp:120-196 | invalid records are dropped, so at most `numOfChunks` chunks come back |
| ReadWrite.DecodePositions | Source/VoxelWorld/SaveGames/ReadWriteManager.cpp:258-264 | reading the region set only moves forward inside the archive |
| ReadWrite.VoxelsFailFrom | Source/VoxelWorld/SaveGames/ReadWriteManager.cpp:164-192 | once a voxel read runs past the end, reading more entries fails too |
| ReadWrite.ChunksFailFrom | Source/VoxelWorld/SaveGames/ReadWriteManager.cpp:120-196 | once a chunk read runs past the end, reading more chunks fails too |
| ReadWrite.PositionsFailFrom | Source/VoxelWorld/SaveGames/ReadWriteManager.cpp:258-264 | once a position read runs past the end, reading more positions fails too |
| ReadWrite.ConvertWorldToBinary | Source/VoxelWorld/SaveGames/ReadWriteManager.cpp:202-240 | the archive is the world's encoding: empty for an invalid world, else flag, count, positions, name and three `uint8` sizes |
| ReadWrite.ConvertBinaryToWorld | Source/VoxelWorld/SaveGames/ReadWriteManager.cpp:242-286 | the world read is the decoding of the archive; a zero flag gives the default world |
| CodecProperties.EncodeVoxelLength | Source/VoxelWorld/SaveGames/ReadWriteManager.cpp:67-86 | an entry takes 5 bytes when compressed and 3 otherwise |
| CodecProperties.EncodeVoxelsLength | Source/VoxelWorld/SaveGames/ReadWriteManager.cpp:67-86 | `n` entries take `5n` or `3n` bytes |
| CodecProperties.EncodeChunkLength | Source/VoxelWorld/SaveGames/ReadWriteManager.cpp:31-87 | an invalid chunk takes 1 byte; a valid one takes 7 bytes, 3 more when compressed, plus its entries |
| CodecProperties.EncodeChunksLength | Source/VoxelWorld/SaveGames/ReadWriteManager.cpp:31-87 | the chunk records take the sum of their lengths |
| CodecProperties.EncodeRegionLength | Source/VoxelWorld/SaveGames/ReadWriteManager.cpp:8-91 | a valid region is its 11-byte header plus its chunk records; an invalid one is empty |
| CodecProperties.EncodableFits | Source/VoxelWorld/SaveGames/ReadWriteManager.cpp:67-86 | a chunk's entries that fit their fields fit them one by one |
| CodecProperties.EncodableChunksFit | Source/VoxelWorld/SaveGames/ReadWriteManager.cpp:31-87 | chunks that fit their fields fit them one by one |
| CodecProperties.ReadVoxel | Source/VoxelWorld/SaveGames/ReadWriteManager.cpp:169-188 | one stored entry reads back as written: its index when compressed, and its value |
| CodecProperties.VoxelsAtOf | Source/VoxelWorld/SaveGames/ReadWriteManager.cpp:164-192 | stored entries read back one after another as written |
| CodecProperties.ChunkHeaderAt | Source/VoxelWorld/SaveGames/ReadWriteManager.cpp:39-64 | the fixed fields of a stored valid chunk read back as written |
| CodecProperties.ChunkAtOf | Source/VoxelWorld/SaveGames/ReadWriteManager.cpp:120-196 | a stored chunk has its flag, fields and entries where the decoder reads them |
| CodecProperties.ChunksAtOf | Source/VoxelWorld/SaveGames/ReadWriteManager.cpp:120-196 | stored chunks lie one after another where the decoder reads them |
| CodecProperties.DecodeVoxelStep | Source/VoxelWorld/SaveGames/ReadWriteManager.cpp:164-192 | one more stored entry with a fresh key is decoded onto the end of the map |
| CodecProperties.DecodeVoxelsOf | Source/VoxelWorld/SaveGames/ReadWriteManager.cpp:164-192 | stored entries whose fields fit decode to the same map and end where the encoding ends |
| CodecProperties.DecodeChunkOf | Source/VoxelWorld/SaveGames/ReadWriteManager.cpp:120-196 | a stored chunk decodes to its canonical form: an invalid one to the default chunk, an uncompressed one with `removedVoxel` 0 |
| CodecProperties.KeptSnoc | Source/VoxelWorld/SaveGames/ReadWriteManager.cpp:126-129 | the decoded chunk list takes one more chunk exactly when that chunk is valid |
| CodecProperties.DecodeChunkStep | Source/VoxelWorld/SaveGames/ReadWriteManager.cpp:120-196 | one more stored chunk record is decoded onto the end of the chunk list, or dropped if invalid |
| CodecProperties.DecodeChunksOf | Source/VoxelWorld/SaveGames/ReadWriteManager.cpp:120-196 | stored chunk records decode to the valid ones among them, in canonical form |
| CodecProperties.RegionAt | Source/VoxelWorld/SaveGames/ReadWriteManager.cpp:19-28 | in an encoded region the header fields and chunk records sit where the decoder reads them |
| CodecProperties.DecodeRegionOf | Source/VoxelWorld/SaveGames/ReadWriteManager.cpp:93-200 | an archive with a region's header and chunk records in place decodes to that region |
| CodecProperties.DecodeRegionRoundTrip | Source/VoxelWorld/SaveGames/ReadWriteManager.cpp:8-200 | a region whose fields fit their widths decodes to itself, except that invalid chunks are dropped and an uncompressed chunk's `removedVoxel` becomes 0 |
| WorldProperties.EncodePositionsLength | Source/VoxelWorld/SaveGames/ReadWriteManager.cpp:216-221 | every region position takes 8 bytes |
| WorldProperties.EncodeWorldLength | Source/VoxelWorld/SaveGames/ReadWriteManager.cpp:202-240 | a valid world takes 8 bytes, 8 per region, and its name; an invalid one is empty |
| WorldProperties.DecodePositionStep | Source/VoxelWorld/SaveGames/ReadWriteManager.cpp:258-264 | one more stored coordinate pair, not yet in the set, is read onto its end |
| WorldProperties.PositionsSnoc | Source/VoxelWorld/SaveGames/ReadWriteManager.cpp:258-264 | a set without its last coordinate is still a set and does not hold it |
| WorldProperties.DecodePositionsOf | Source/VoxelWorld/SaveGames/ReadWriteManager.cpp:258-264 | a stored region set reads back as the same positions in the same order |
| WorldProperties.WorldAt | Source/VoxelWorld/SaveGames/ReadWriteManager.cpp:202-224 | in a stored world the flag, count, coordinates and name sit where the decoder reads them |
| WorldProperties.WorldSizesAt | Source/VoxelWorld/SaveGames/ReadWriteManager.cpp:226-236 | the three size bytes follow the name and hold the sizes narrowed to `uint8` |
| WorldProperties.WorldPartsRead | Source/VoxelWorld/SaveGames/ReadWriteManager.cpp:258-267 | the stored region set and name read back as themselves |
| WorldProperties.DecodeWorldFromParts | Source/VoxelWorld/SaveGames/ReadWriteManager.cpp:242-286 | a world whose parts are read back decodes to itself with its sizes narrowed |
| WorldProperties.DecodeWorldOf | Source/VoxelWorld/SaveGames/ReadWriteManager.cpp:242-286 | a stored world reads back with its set and name, and with its sizes narrowed to `uint8` |
| WorldProperties.DecodeWorldRoundTrip | Source/VoxelWorld/SaveGames/ReadWriteManager.cpp:202-286 | a valid world whose count matches its set, whose coordinates fit an int32 and whose name fits its count decodes to itself, with the three sizes narrowed to `uint8` |
| Names.Utf16Length | Source/VoxelWorld/SaveGames/ReadWriteManager.cpp:224 | a string's UTF-16 form has between one and two code units per character, each below 2^16 |
| Names.Utf16RoundTrip | Source/VoxelWorld/SaveGames/ReadWriteManager.cpp:267 | decoding a string's code units gives the string back |
| Names.AnsiBytesLength | Source/VoxelWorld/SaveGames/ReadWriteManager.cpp:224 | the one-byte form has one byte per character |
| Names.UnitBytesLength | Source/VoxelWorld/SaveGames/ReadWriteManager.cpp:224 | the UTF-16 form has two bytes per code unit |
| Names.AnsiFromOf | Source/VoxelWorld/SaveGames/ReadWriteManager.cpp:267 | stored one-byte characters read back as the string |
| Names.UnitsFromOf | Source/VoxelWorld/SaveGames/ReadWriteManager.cpp:267 | stored code units read back as the units |
| Names.UnicodeNameAt | Source/VoxelWorld/SaveGames/ReadWriteManager.cpp:224 | a stored UTF-16 name is its negated count and its code units |
| Names.DecodeAnsiNameOf | Source/VoxelWorld/SaveGames/ReadWriteManager.cpp:267 | a stored 7-bit name reads back as itself |
| Names.DecodeUnicodeNameOf | Source/VoxelWorld/SaveGames/ReadWriteManager.cpp:267 | a stored UTF-16 name reads back as itself |
| Names.DecodeNameOf | Source/VoxelWorld/SaveGames/ReadWriteManager.cpp:267 | any stored name reads back as itself, and reading stops right after it |
| Names.DecodeName | Source/VoxelWorld/SaveGames/ReadWriteManager.cpp:267 | a name read moves past at least its 4-byte count and stays inside the archive |
| Paths.IntToStringShape | Source/VoxelWorld/SaveGames/ReadWriteManager.cpp:293 | `FString::FromInt` is all digits, after a minus sign exactly for a negative number |
| Paths.NatToStringInjective | Source/VoxelWorld/SaveGames/ReadWriteManager.cpp:293 | different numbers have different decimal digits |
| Paths.IntToStringInjective | Source/VoxelWorld/SaveGames/ReadWriteManager.cpp:293 | `FString::FromInt` is one-to-one |
| Paths.RegionPathTail | Source/VoxelWorld/SaveGames/ReadWriteManager.cpp:292-294 | the region path is the save prefix, `Reg_(`, then X, `)-(`, Y and `).sav` |
| Paths.RegionPathInjective | Source/VoxelWorld/SaveGames/ReadWriteManager.cpp:292-294 | two regions of one world share a file exactly when they share a position |
| Paths.WorldPathIsNoRegionPath | Source/VoxelWorld/SaveGames/ReadWriteManager.cpp:288-294 | the world file is none of the region files |
| ChunkCoords.TruncOfNonNegative | Source/VoxelWorld/ChunkManagement/ChunkActor.cpp:58 | for non-negative operands C++ truncating division and remainder agree with Euclidean ones |
| ChunkCoords.RegionIndexIsFloor | Source/VoxelWorld/ChunkManagement/ChunkActor.cpp:50-58 | the shifted truncating division gives the floor of `c / r` for every `c` |
| ChunkCoords.LocalIndexIsAbsMod | Source/VoxelWorld/ChunkManagement/ChunkActor.cpp:60-66 | the index inside the region is `|c| mod r`, in `[0, r)` |
| ChunkCoords.InitializedIndicesLoseX | Source/VoxelWorld/ChunkManagement/ChunkActor.cpp:60-66 | as written, chunk (3, 5) in regions of 16 gets indices (5, 5); the per-axis form gives (3, 5) |
| ChunkCoords.CorrectedIndicesPerAxis | Source/VoxelWorld/ChunkManagement/ChunkActor.cpp:60-66 | reducing each axis on its own gives `(|x| mod r, |y| mod r)` |
| ChunkCoords.CorrectedIndicesInFirstRegion | Source/VoxelWorld/ChunkManagement/ChunkActor.cpp:60-66 | a chunk of region (0, 0) keeps its coordinates as its corrected indices |
| ChunkCoords.SpawnPlacementNonNegative | Source/VoxelWorld/ChunkManagement/ChunkManager.cpp:149-181 | a loaded chunk at non-negative coordinates is placed at `local + 16·region == c` |
| ChunkCoords.SpawnPlacementMirrors | Source/VoxelWorld/ChunkManagement/ChunkManager.cpp:149-181 | a loaded chunk at X = -1 is placed at -15 |
| ChunkCoords.CorrectedSpawnPlacementExact | Source/VoxelWorld/ChunkManagement/ChunkManager.cpp:149-181 | with the local index counted from the region's lower end it lies in `[0, 16)` and every chunk is placed where it is |
| ChunkGeometry.NormalsAreMask | Source/VoxelWorld/ChunkManagement/ChunkActor.cpp:8-14 | each `bNormals<i>` table is four copies of `bMask[i]` |
| ChunkGeometry.EmptyRecordWellFormed | Source/VoxelWorld/ChunkManagement/ChunkActor.h:13-21 | a fresh mesh record has no vertices and `elementID` 0, so `elementID` counts its vertices |
| ChunkGeometry.AddFaceShape | Source/VoxelWorld/ChunkManagement/ChunkActor.cpp:328-400 | a face appends 4 vertices, 4 normals, the 4 UVs, 4 colours with alpha `i` and 6 triangle indices, and keeps what was there |
| ChunkGeometry.AddFaceTriangles | Source/VoxelWorld/ChunkManagement/ChunkActor.cpp:328-334 | the earlier triangle indices are kept and the six new ones are `{2,1,0,0,3,2}` plus the vertex count before the face |
| ChunkGeometry.AddFaceIndices | Source/VoxelWorld/ChunkManagement/ChunkActor.cpp:328-334 | every triangle index stays below the record's vertex count |
| ChunkGeometry.AddFaceNormals | Source/VoxelWorld/ChunkManagement/ChunkActor.cpp:389-400 | every vertex's normal is the mask of the direction stored in its colour's alpha |
| ChunkGeometry.AddFaceConsistent | Source/VoxelWorld/ChunkManagement/ChunkActor.cpp:328-400 | the six arrays stay in step through a face: one normal, UV and colour per vertex, and no tangent |
| ChunkGeometry.FaceOnPlane | Source/VoxelWorld/ChunkManagement/ChunkActor.cpp:337-391 | the four corners of a face lie on the face's plane, e.g. z = `voxelSizeHalved + z·voxelSize` for +Z |
| ChunkGeometry.QuadWinding | Source/VoxelWorld/ChunkManagement/ChunkActor.cpp:337-391 | both triangles of every quad case are wound the same way about the face's direction |
| ChunkGeometry.ZWinding | Source/VoxelWorld/ChunkManagement/ChunkActor.cpp:338-355 | both triangles of a +Z or -Z quad are wound the same way about its direction |
| ChunkGeometry.YWinding | Source/VoxelWorld/ChunkManagement/ChunkActor.cpp:356-373 | both triangles of a +Y or -Y quad are wound the same way about its direction |
| ChunkGeometry.XWinding | Source/VoxelWorld/ChunkManagement/ChunkActor.cpp:374-391 | both triangles of a +X or -X quad are wound the same way about its direction |
| ChunkGeometry.FaceWinding | Source/VoxelWorld/ChunkManagement/ChunkActor.cpp:328-391 | every emitted quad is a proper quad whose triangles are wound consistently about its normal |
| ChunkMesh.CellIndexBound | Source/VoxelWorld/ChunkManagement/ChunkActor.cpp:283 | every cell of the chunk has a flat index inside the grid |
| ChunkMesh.FaceCount | Source/VoxelWorld/ChunkManagement/ChunkActor.cpp:313-326 | a cell emits at most one face per direction |
| ChunkMesh.VoxelUpToShape | Source/VoxelWorld/ChunkManagement/ChunkActor.cpp:313-403 | a voxel's faces add four vertices each and keep the record consistent |
| ChunkMesh.AddVoxelWellFormed | Source/VoxelWorld/ChunkManagement/ChunkActor.cpp:402-403 | after each voxel, `elementID` again equals the record's vertex count |
| ChunkMesh.StepCellWellFormed | Source/VoxelWorld/ChunkManagement/ChunkActor.cpp:283-403 | one cell of the scan keeps every record well formed |
| ChunkMesh.ColumnWellFormed | Source/VoxelWorld/ChunkManagement/ChunkActor.cpp:282 | the z loop keeps every record well formed |
| ChunkMesh.RowWellFormed | Source/VoxelWorld/ChunkManagement/ChunkActor.cpp:281 | the y loop keeps every record well formed |
| ChunkMesh.SliceWellFormed | Source/VoxelWorld/ChunkManagement/ChunkActor.cpp:280 | the x loop keeps every record well formed |
| ChunkMesh.MeshWellFormed | Source/VoxelWorld/ChunkManagement/ChunkActor.cpp:275-407 | the scan yields one well-formed record per asset-list entry |
| ChunkMesh.StepCellOnlyHeld | Source/VoxelWorld/ChunkManagement/ChunkActor.cpp:284-305 | one cell changes only the record of the valid non-zero id it holds |
| ChunkMesh.ColumnOnlyHeld | Source/VoxelWorld/ChunkManagement/ChunkActor.cpp:282 | the z loop changes only records of held ids |
| ChunkMesh.RowOnlyHeld | Source/VoxelWorld/ChunkManagement/ChunkActor.cpp:281 | the y loop changes only records of held ids |
| ChunkMesh.SliceOnlyHeld | Source/VoxelWorld/ChunkManagement/ChunkActor.cpp:280 | the x loop changes only records of held ids |
| ChunkMesh.MeshOnlyHeldIds | Source/VoxelWorld/ChunkManagement/ChunkActor.cpp:287-300 | the record of an id that no cell holds validly stays empty: 0 and invalid ids produce no geometry |
| ChunkMesh.SectionsOfMesh | Source/VoxelWorld/ChunkManagement/ChunkActor.cpp:411-423 | the sections are exactly the records with id at least 1 and some vertex, each of an id some cell holds |
| ChunkMesh.SideFaces | Source/VoxelWorld/ChunkManagement/ChunkActor.cpp:318-324 | a side face whose neighbour leaves the chunk's x or y range is always emitted |
| ChunkMesh.EndFaces | Source/VoxelWorld/ChunkManagement/ChunkActor.cpp:314-322 | the -Z face at z = 0 is never emitted, nor the +Z face at the top when the grid holds exactly the chunk's cells: the neighbour's index leaves the grid |
| ChunkMesh.InnerFaces | Source/VoxelWorld/ChunkManagement/ChunkActor.cpp:318-322 | away from the borders a face is emitted exactly when the neighbour holds an id below 1 |
| ChunkFill.DistributionLayered | Source/VoxelWorld/ChunkManagement/ChunkActor.cpp:193-204 | going up a column the ids go stone, dirt, grass, air, never deeper |
| ChunkFill.DistributionShift | Source/VoxelWorld/ChunkManagement/ChunkActor.cpp:193-204 | raising the noise by `k` raises every layer by `k` |
| ChunkFill.GeneratedID | Source/VoxelWorld/ChunkManagement/ChunkActor.cpp:149-157 | a generated cell always holds a valid id: the distribution's, or 0 |
| ChunkFill.Decompose | Source/VoxelWorld/ChunkManagement/ChunkActor.cpp:148 | the flat index `x + y·w + z·w²` determines the cell it came from |
| ChunkFill.Recompose | Source/VoxelWorld/ChunkManagement/ChunkActor.cpp:148 | every non-negative flat index is the index of one cell |
| ChunkFill.CellInChunk | Source/VoxelWorld/ChunkManagement/ChunkActor.cpp:143-148 | a flat index below `w·w·h` lies in a layer below the chunk's height `h` |
| ChunkFill.NoiseStart | Source/VoxelWorld/ChunkManagement/ChunkActor.cpp:132-133 | the noise array starts with one zero per column |
| ChunkFill.NoiseStep | Source/VoxelWorld/ChunkManagement/ChunkActor.cpp:138 | one step stores the hook's noise of column `(x, y)` at `x + y·w` |
| ChunkFill.NoiseNextRow | Source/VoxelWorld/ChunkManagement/ChunkActor.cpp:136-137 | finishing the y loop moves on to the next x |
| ChunkFill.NoiseDone | Source/VoxelWorld/ChunkManagement/ChunkActor.cpp:136-140 | after the noise loop the noise of column `(x, y)` is at `x + y·w` |
| ChunkFill.FillStep | Source/VoxelWorld/ChunkManagement/ChunkActor.cpp:148-157 | one cell is set to its generated id and recorded as changed |
| ChunkFill.FillNextColumn | Source/VoxelWorld/ChunkManagement/ChunkActor.cpp:145 | finishing the z loop moves on to the next column |
| ChunkFill.FillNextRow | Source/VoxelWorld/ChunkManagement/ChunkActor.cpp:144 | finishing the y loop moves on to the next slice |
| ChunkFill.FillDone | Source/VoxelWorld/ChunkManagement/ChunkActor.cpp:143-171 | after the cell loop every cell of the chunk holds its generated id, and every other entry is unchanged |
| ChunkFill.GeneratedCell | Source/VoxelWorld/ChunkManagement/ChunkActor.cpp:143-157 | cell `(x, y, z)` holds the distribution's id for `z` and its column's noise, or 0 when that id is invalid |
| ChunkFill.GeneratedFromNoise | Source/VoxelWorld/ChunkManagement/ChunkActor.cpp:132-149 | reading the noise array is calling the noise hook |
| Chunks.ChunkNameLosesX | Source/VoxelWorld/ChunkManagement/ChunkActor.cpp:66-71 | chunk (3, 5) is named after its Y index twice |
| Chunks.ChunkActor.constructor | Source/VoxelWorld/ChunkManagement/ChunkActor.h:36-121 | the declared defaults: size 100, width 16, height 128, region size 16, width squared 256, offset -800, `voxelSizeHalved` 8, not marked, nothing changed |
| Chunks.ChunkActor.Initialize | Source/VoxelWorld/ChunkManagement/ChunkActor.cpp:28-84 | the settings are copied; the derived sizes are `w·w·h`, `w·w`, `size/2` and `(-w/2)·size` with truncation; the grid is resized keeping its prefix; the region is floor per axis; the X index comes from Y |
| Chunks.ChunkActor.SetSettings | Source/VoxelWorld/ChunkManagement/ChunkActor.cpp:31-39 | the arguments are copied, and both indices and the old indices start as the position |
| Chunks.ChunkActor.DeriveSizes | Source/VoxelWorld/ChunkManagement/ChunkActor.cpp:43-47 | the derived sizes agree with width and height, and the grid holds one entry per cell |
| Chunks.ChunkActor.AssignRegion | Source/VoxelWorld/ChunkManagement/ChunkActor.cpp:50-66 | the region is computed per axis; the indices are those line 66 leaves |
| Chunks.ChunkActor.UpdateMesh | Source/VoxelWorld/ChunkManagement/ChunkActor.cpp:263-441 | fails exactly when the asset list is empty, leaving the sections; otherwise the sections are those of the mesh of the grid |
| Chunks.ChunkActor.MeshCell | Source/VoxelWorld/ChunkManagement/ChunkActor.cpp:283-403 | one cell of the scan adds the voxel's faces to its id's record and skips 0 and invalid ids |
| Chunks.ChunkActor.FaceFlag | Source/VoxelWorld/ChunkManagement/ChunkActor.cpp:314-324 | the flag is the face rule for direction `i` |
| Chunks.ChunkActor.AppendFace | Source/VoxelWorld/ChunkManagement/ChunkActor.cpp:328-400 | one emitted face is appended as `AddFace` describes |
| Chunks.ChunkActor.GenerateChunkFromMap | Source/VoxelWorld/ChunkManagement/ChunkActor.cpp:89-118 | every key of the map is written; the grid grows zero-filled only as far as the largest key; other cells are unchanged; success is the mesh update's |
| Chunks.ChunkActor.WriteMap | Source/VoxelWorld/ChunkManagement/ChunkActor.cpp:99-104 | after the loop over the map, `grid[k] == map[k]`, new cells are 0 and the rest is unchanged |
| Chunks.ChunkActor.GenerateChunk | Source/VoxelWorld/ChunkManagement/ChunkActor.cpp:121-185 | every cell of the chunk holds its generated id, every cell is recorded as changed, the chunk is marked for saving, and success is the mesh update's |
| Chunks.ChunkActor.NoiseField | Source/VoxelWorld/ChunkManagement/ChunkActor.cpp:132-140 | the noise array has one entry per column holding the hook's value |
| Chunks.ChunkActor.FillCells | Source/VoxelWorld/ChunkManagement/ChunkActor.cpp:143-171 | every cell is set from the noise array and added to the changed set |
| Chunks.ChunkActor.FillSlice | Source/VoxelWorld/ChunkManagement/ChunkActor.cpp:144-170 | one slice of the cell loop extends the filled region by its columns |
| Chunks.ChunkActor.FillColumn | Source/VoxelWorld/ChunkManagement/ChunkActor.cpp:145-169 | one column of the cell loop extends the filled region by its cells |
| Chunks.ChunkActor.ReplaceVoxel | Source/VoxelWorld/ChunkManagement/ChunkActor.cpp:220-261 | an invalid id changes nothing; a failed mesh update puts the old id back and leaves the flags; success writes the id, marks the chunk and records the cell |
| Chunks.EmptyIfNoMember | Source/VoxelWorld/ChunkManagement/ChunkActor.cpp:99 | a map with no key left to visit has been visited entirely |
| Chunks.CellWellFormed | Source/VoxelWorld/ChunkManagement/ChunkActor.cpp:280-407 | every record the scan has built so far is well formed |
| Packing.SlabCells | Source/VoxelWorld/SaveGames/SaveManager.cpp:257-263 | slab `s` is the grid entries `[N·s/k, N·(s+1)/k)`, in grid order |
| Packing.SlabOfEvenSplit | Source/VoxelWorld/SaveGames/SaveManager.cpp:257-258 | when `k` divides the grid, slab `s` is its `s`-th run of `N/k` cells |
| Packing.SlabBounds | Source/VoxelWorld/SaveGames/SaveManager.cpp:257-258 | slab bounds never decrease and stay inside the grid |
| Packing.TallyAt | Source/VoxelWorld/SaveGames/SaveManager.cpp:265-270 | counting a value grows the histogram zero-filled to hold it and adds one at it only |
| Packing.HistogramCounts | Source/VoxelWorld/SaveGames/SaveManager.cpp:261-271 | entry `v` of the histogram is the number of cells holding `v` |
| Packing.HistogramCovers | Source/VoxelWorld/SaveGames/SaveManager.cpp:261-271 | every cell's id indexes the histogram, whose last entry is an id of the slab |
| Packing.HistogramBound | Source/VoxelWorld/SaveGames/SaveManager.cpp:261-271 | no count exceeds the number of cells |
| Packing.FirstMax | Source/VoxelWorld/SaveGames/SaveManager.cpp:274 | the result is the largest count and the first id that has it, -1 for an empty histogram |
| Packing.SlabMode | Source/VoxelWorld/SaveGames/SaveManager.cpp:274 | the mode's count lies between 0 and the slab's size |
| Packing.SlabModeIsFirstMostFrequent | Source/VoxelWorld/SaveGames/SaveManager.cpp:265-274 | the mode is an id of maximal count in the slab, ties going to the smaller id |
| Packing.PackStep | Source/VoxelWorld/SaveGames/SaveManager.cpp:261-271 | one more cell is stored under the next key and counted in the histogram |
| Packing.ListedAppend | Source/VoxelWorld/SaveGames/SaveManager.cpp:263 | one more cell is stored under the next key |
| Packing.HistogramAppend | Source/VoxelWorld/SaveGames/SaveManager.cpp:265-270 | one more cell is counted in the histogram |
| Packing.DroppedEntries | Source/VoxelWorld/SaveGames/SaveManager.cpp:280-284 | the cells kept by full elision are exactly those not holding the removed id, in key order |
| Packing.ElidedAt | Source/VoxelWorld/SaveGames/SaveManager.cpp:280-284 | before key `j` is inspected, the map is the kept pairs below `j`, then `j`, then the rest |
| Packing.ElideFinds | Source/VoxelWorld/SaveGames/SaveManager.cpp:281 | key `j` is still present with its cell's value when the loop reaches it |
| Packing.ElideStep | Source/VoxelWorld/SaveGames/SaveManager.cpp:281-283 | one round removes key `j` exactly when it holds the removed id |
| Packing.ElidedMap | Source/VoxelWorld/SaveGames/SaveManager.cpp:280-284 | after the loop a key is present unless it is below the count and holds the removed id; present keys keep their values |
| Packing.ListedMap | Source/VoxelWorld/SaveGames/SaveManager.cpp:261-263 | an uncompressed slab is stored whole, key `j` holding cell `j` |
| Packing.ListedEntries | Source/VoxelWorld/SaveGames/SaveManager.cpp:261-263 | the stored pairs have keys 0 .. n-1 in order |
| Packing.SubChunkRestores | Source/VoxelWorld/SaveGames/SaveManager.cpp:250-293 | every stored key is a slab cell with its value, a missing key held the removed id of a compressed sub-chunk, and `numOfVoxel` counts the stored pairs |
| Packing.SubChunkCompression | Source/VoxelWorld/SaveGames/SaveManager.cpp:278-284 | a slab is compressed exactly when its mode fills strictly more than 40% of `N/k` cells, and then only copies below the mode's count are left out |
| Packing.SubChunkRemovesMode | Source/VoxelWorld/SaveGames/SaveManager.cpp:274 | the removed voxel is the slab's first most frequent id, -1 for an empty slab |
| Packing.ElisionStopsAtCount | Source/VoxelWorld/SaveGames/SaveManager.cpp:280 | in slab `[1, 0, 0]` the compressed mode 0 is removed at key 1 only; the copy at key 2 stays |
| Saving.RegionSlot | Source/VoxelWorld/SaveGames/SaveManager.cpp:105 | the result is the slot of the region at `p`, or -1 when no region has that position |
| Saving.CollectedOfAbsent | Source/VoxelWorld/SaveGames/SaveManager.cpp:95-119 | a region no saved chunk belongs to collects no sub-chunks |
| Saving.GroupedSpec | Source/VoxelWorld/SaveGames/SaveManager.cpp:95-119 | the region map holds one region per region of a marked chunk, each with all those chunks' sub-chunks in chunk order and the matching count |
| Saving.GroupedRegions | Source/VoxelWorld/SaveGames/SaveManager.cpp:105-109 | every grouped region is valid, and no two share a position |
| Saving.GroupedStep | Source/VoxelWorld/SaveGames/SaveManager.cpp:102-118 | adding one chunk's sub-chunks keeps the grouping exact |
| Saving.GroupedAppend | Source/VoxelWorld/SaveGames/SaveManager.cpp:102-118 | the region map after one more chunk adds its sub-chunks to its region |
| Saving.SavesStep | Source/VoxelWorld/SaveGames/SaveManager.cpp:96-99 | a marked chunk contributes its sub-chunks; an unmarked one contributes nothing |
| Saving.RegionWrittenSpec | Source/VoxelWorld/SaveGames/SaveManager.cpp:128-132 | one region is written exactly when it is valid and its file does not fail; then its position joins the set and the count is the set's size |
| Saving.RegionArchiveEmpty | Source/VoxelWorld/SaveGames/SaveManager.cpp:146-150 | only an invalid region has an empty archive, so only it is refused for emptiness |
| Saving.RegionsWrittenFrame | Source/VoxelWorld/SaveGames/SaveManager.cpp:122-133 | writing regions changes only the world's region set and count, and only the region files |
| Saving.RegionsWrittenStops | Source/VoxelWorld/SaveGames/SaveManager.cpp:128-129 | the first failed write ends the run; later regions are not written |
| Saving.RegionsWrittenSucceeds | Source/VoxelWorld/SaveGames/SaveManager.cpp:122-133 | the regions are all written exactly when each is valid and its file does not fail |
| Saving.AllWritableSplit | Source/VoxelWorld/SaveGames/SaveManager.cpp:122-133 | every region is writable exactly when all but the last are and the last is |
| Saving.RegionsWrittenStored | Source/VoxelWorld/SaveGames/SaveManager.cpp:122-133 | after a successful run every region file holds its region's archive |
| Saving.RegionWrittenStoredAt | Source/VoxelWorld/SaveGames/SaveManager.cpp:128 | after a successful run, region `i`'s file holds its archive |
| Saving.RegionsWrittenListed | Source/VoxelWorld/SaveGames/SaveManager.cpp:131-132 | after a successful run the set holds every region position, and the count is its size |
| Saving.AddAllSpec | Source/VoxelWorld/SaveGames/SaveManager.cpp:131 | adding positions one by one keeps a set duplicate-free and holds all of them |
| Saving.RegionFilesDistinct | Source/VoxelWorld/SaveGames/SaveManager.cpp:128-136 | the grouped regions go to different files, none of them the world file |
| Saving.WorldWrittenSucceeds | Source/VoxelWorld/SaveGames/SaveManager.cpp:122-139 | regions then header succeed exactly when every region is writable and the world file does not fail |
| Saving.WorldWrittenStored | Source/VoxelWorld/SaveGames/SaveManager.cpp:122-139 | after success each region file holds its archive, the set holds the positions, and the world file holds the updated world |
| Saving.WorldWrittenFailure | Source/VoxelWorld/SaveGames/SaveManager.cpp:128-137 | a failed run leaves the world file as it was |
| Saving.ValidRegionsWritable | Source/VoxelWorld/SaveGames/SaveManager.cpp:128-149 | valid regions can be written exactly when none of their files fails |
| Saving.SaveOutcomeSucceeds | Source/VoxelWorld/SaveGames/SaveManager.cpp:88-140 | a save succeeds exactly when the world is valid and neither a region file nor the world file fails |
| Saving.SaveOutcomeStored | Source/VoxelWorld/SaveGames/SaveManager.cpp:88-140 | after a successful save every grouped region is in its own file, the world's set holds their positions, and the world file holds the updated world |
| Saving.SaveOutcomeFailure | Source/VoxelWorld/SaveGames/SaveManager.cpp:91-137 | an invalid world writes and changes nothing; a failed save leaves the world file as it was |
| Saving.SaveManager.constructor | Source/VoxelWorld/SaveGames/SaveManager.cpp:16-23 | the save starts from the given world and chunk set |
| Saving.SaveManager.GatherChunkInformation | Source/VoxelWorld/SaveGames/SaveManager.cpp:241-298 | no sub-chunks for a null chunk; otherwise `h/w` sub-chunks, each valid at `(chunkIndexX, chunkIndexY, s)` and packed from slab `s` |
| Saving.SaveManager.GatherSlab | Source/VoxelWorld/SaveGames/SaveManager.cpp:255-293 | one slab is packed as `SubChunk` describes |
| Saving.SaveManager.ReadSlab | Source/VoxelWorld/SaveGames/SaveManager.cpp:261-271 | the slab's cells are stored re-keyed from 0, and the histogram counts them |
| Saving.SaveManager.CountVoxel | Source/VoxelWorld/SaveGames/SaveManager.cpp:265-270 | one cell is counted as `Tally` describes |
| Saving.SaveManager.ElideLeading | Source/VoxelWorld/SaveGames/SaveManager.cpp:280-284 | the loop removes every key below the mode's count that holds the mode's id |
| Saving.SaveManager.SaveWorld | Source/VoxelWorld/SaveGames/SaveManager.cpp:88-140 | the result, the world and the files are those of `SaveOutcome` on the marked chunks' contributions |
| Saving.SaveManager.GroupRegions | Source/VoxelWorld/SaveGames/SaveManager.cpp:95-119 | the grouping loop yields `Grouped` of the marked chunks' contributions |
| Saving.SaveManager.SaveChunk | Source/VoxelWorld/SaveGames/SaveManager.cpp:102-118 | one marked chunk is packed and added to its region |
| Saving.SaveManager.AddToRegion | Source/VoxelWorld/SaveGames/SaveManager.cpp:105-118 | the region is created when missing, then the sub-chunks are appended and counted |
| Saving.SaveManager.WriteRegions | Source/VoxelWorld/SaveGames/SaveManager.cpp:122-133 | the region loop's result, world and files are `RegionsWritten` |
| Saving.SaveManager.WriteRegionToSave | Source/VoxelWorld/SaveGames/SaveManager.cpp:142-193 | succeeds exactly when the region is valid and the file does not fail, and then stores the region's archive |
| Saving.SaveManager.WriteWorldToSave | Source/VoxelWorld/SaveGames/SaveManager.cpp:195-239 | succeeds exactly when the world is valid and the file does not fail, and then stores the world's archive |
| Loading.ReadWorld | Source/VoxelWorld/SaveGames/LoadManager.cpp:221-252 | a world read from a file has a chunk width below 256, as it was stored in one byte |
| Loading.RegionsReadSucceeds | Source/VoxelWorld/SaveGames/LoadManager.cpp:112-132 | the regions are read exactly when every listed region file reads back valid |
| Loading.RegionsReadValues | Source/VoxelWorld/SaveGames/LoadManager.cpp:112-132 | the i-th region read is the one in the file of the i-th position |
| Loading.RegionsReadPrefix | Source/VoxelWorld/SaveGames/LoadManager.cpp:120-126 | a region that fails to load makes the whole list fail |
| Loading.StepKeeps | Source/VoxelWorld/SaveGames/LoadManager.cpp:148-161 | an iteration finds the voxel it reads and keeps every voxel still to come |
| Loading.Restitched | Source/VoxelWorld/SaveGames/LoadManager.cpp:148-162 | the keys still to be visited are all present after `n` iterations |
| Loading.RestitchedNext | Source/VoxelWorld/SaveGames/LoadManager.cpp:148-162 | iteration `n` reads a voxel that is there and yields the next map |
| Loading.FillAt | Source/VoxelWorld/SaveGames/LoadManager.cpp:151-154 | a compressed sub-chunk gets a missing key `i` back with the removed voxel; nothing else changes |
| Loading.ShiftAt | Source/VoxelWorld/SaveGames/LoadManager.cpp:157-161 | voxel `i` moves to key `i + offset` unless the offset is 0 |
| Loading.RestitchStepAt | Source/VoxelWorld/SaveGames/LoadManager.cpp:148-162 | one iteration, at any key: the map stays a map and the restitch invariant advances |
| Loading.RestitchedMap | Source/VoxelWorld/SaveGames/LoadManager.cpp:148-162 | after `n` iterations, at any key: moved voxels are at their new keys, filled ones hold the removed voxel |
| Loading.RestitchedKeys | Source/VoxelWorld/SaveGames/LoadManager.cpp:148-162 | a restitched sub-chunk occupies exactly keys `[Z·w³, (Z+1)·w³)` that it held or that were filled |
| Loading.RestitchedValueAt | Source/VoxelWorld/SaveGames/LoadManager.cpp:148-162 | a moved voxel keeps its id, and an elided one comes back as the removed voxel |
| Loading.UnpackedAll | Source/VoxelWorld/SaveGames/LoadManager.cpp:145-162 | one restitched map per sub-chunk, in order |
| Loading.GroupCount | Source/VoxelWorld/SaveGames/LoadManager.cpp:166-175 | the split counter wraps after the eighth sub-chunk |
| Loading.StackedShape | Source/VoxelWorld/SaveGames/LoadManager.cpp:142-176 | after `m` sub-chunks, `m/8` columns are built and `m mod 8` maps are waiting |
| Loading.ColumnCompleted | Source/VoxelWorld/SaveGames/LoadManager.cpp:166-171 | the eighth sub-chunk of a group completes its column |
| Loading.StackedColumnAt | Source/VoxelWorld/SaveGames/LoadManager.cpp:142-176 | column `j` is stacked from the `j`-th group of eight sub-chunks |
| Loading.StackedGroups | Source/VoxelWorld/SaveGames/LoadManager.cpp:142-176 | one valid column per complete group of eight, at the eighth's (X, Y, 0), holding the eight maps appended; a trailing incomplete group is dropped |
| Loading.UnpackedSubChunk | Source/VoxelWorld/SaveGames/LoadManager.cpp:148-162 | a packed slab `s` restitches to a map holding grid keys `[s·w³, (s+1)·w³)` with their ids |
| Loading.AppendHoldsAt | Source/VoxelWorld/SaveGames/LoadManager.cpp:164 | appending keeps every key of either range with its id |
| Loading.AppendHolds | Source/VoxelWorld/SaveGames/LoadManager.cpp:164 | appending a map for keys `lo .. hi-1` to one for `0 .. lo-1` gives one for `0 .. hi-1` |
| Loading.PileHolds | Source/VoxelWorld/SaveGames/LoadManager.cpp:164 | maps for consecutive ranges pile up to one map for all of them |
| Loading.ReloadRestoresChunk | Source/VoxelWorld/SaveGames/LoadManager.cpp:145-172 | a chunk with `h = 8w`, saved and loaded, comes back as one valid column at `(x, y, 0)` holding every grid cell with its id and nothing else |
| Loading.LoadOutcomeSucceeds | Source/VoxelWorld/SaveGames/LoadManager.cpp:89-180 | a load succeeds exactly when the world file and every region file it lists read back valid; a failed load adds no chunk; the world is replaced whenever its file decodes |
| Loading.LoadOutcomeCases | Source/VoxelWorld/SaveGames/LoadManager.cpp:95-177 | the load case by case: no world file, invalid world, a region failing, or all regions read |
| Loading.LoadRegionsCase | Source/VoxelWorld/SaveGames/LoadManager.cpp:135-177 | with the world and all regions read, every region's columns are appended to the chunk list |
| Loading.LoadManager.constructor | Source/VoxelWorld/SaveGames/LoadManager.cpp:16-24 | the load starts from the given name, world and chunk list |
| Loading.LoadManager.LoadWorld | Source/VoxelWorld/SaveGames/LoadManager.cpp:89-180 | the result, world and chunk list are `LoadOutcome` |
| Loading.LoadManager.ReadRegions | Source/VoxelWorld/SaveGames/LoadManager.cpp:111-132 | the region loop stops at the first region that does not load, and otherwise lists them in order |
| Loading.LoadManager.UnpackRegions | Source/VoxelWorld/SaveGames/LoadManager.cpp:138-177 | the columns of the regions, region after region |
| Loading.LoadManager.UnpackRegion | Source/VoxelWorld/SaveGames/LoadManager.cpp:142-176 | one region's sub-chunks restitched and stacked eight at a time |
| Loading.LoadManager.RestitchVoxels | Source/VoxelWorld/SaveGames/LoadManager.cpp:148-162 | the inner loop yields the restitched map of the sub-chunk |
| Loading.LoadManager.RestitchVoxel | Source/VoxelWorld/SaveGames/LoadManager.cpp:150-161 | one iteration fills in voxel `i` if it is missing, then moves it |
| Loading.LoadManager.ReadWorldFromSave | Source/VoxelWorld/SaveGames/LoadManager.cpp:221-267 | every decoded field is copied into the world before validity is checked; the result is whether it is valid |
| Loading.LoadManager.ReadRegionFromSave | Source/VoxelWorld/SaveGames/LoadManager.cpp:182-219 | the result is false unless the file reads back as a valid region, which is then returned |
| Manager.VoxelAsset.constructor | Source/VoxelWorld/Assets/VoxelAsset.h:28 | an asset carries its id |
| Manager.HighestID | Source/VoxelWorld/ChunkManagement/ChunkManager.cpp:34-43 | the highest id, starting from -1, is at least every asset's id |
| Manager.HighestIDAttained | Source/VoxelWorld/ChunkManagement/ChunkManager.cpp:34-43 | a highest id other than -1 is the id of some asset |
| Manager.LastWith | Source/VoxelWorld/ChunkManagement/ChunkManager.cpp:46 | the last entry with id `k`: no later entry has that id |
| Manager.Placed | Source/VoxelWorld/ChunkManagement/ChunkManager.cpp:36-49 | the working array keeps its size |
| Manager.PlacedAt | Source/VoxelWorld/ChunkManagement/ChunkManager.cpp:36-49 | slot `k` of the working array holds the last asset with id `k`, or is left as it was |
| Manager.Reshuffled | Source/VoxelWorld/ChunkManagement/ChunkManager.cpp:50-57 | the reshuffled list is no longer than the working array |
| Manager.ReshuffledLength | Source/VoxelWorld/ChunkManagement/ChunkManager.cpp:50-51 | the list is empty when no entry holds an asset, else as long as the highest id plus one |
| Manager.ReshuffledSlots | Source/VoxelWorld/ChunkManagement/ChunkManager.cpp:52-57 | slot `k` holds the last asset with id `k`, or what the uninitialised buffer held |
| Manager.ReshuffledPlacesAssets | Source/VoxelWorld/ChunkManagement/ChunkManager.cpp:36-57 | each asset lands at the slot of its id unless a later entry with that id takes it |
| Manager.WorldToSaveRoundTrip | Source/VoxelWorld/ChunkManagement/ChunkManager.cpp:187-191 | the world a save starts from is written and read back unchanged when its sizes fit a byte |
| Manager.WorldToSaveEncodable | Source/VoxelWorld/ChunkManagement/ChunkManager.cpp:187-191 | that world is valid and its count matches its (empty) region set |
| Manager.WorldToSaveProceeds | Source/VoxelWorld/ChunkManagement/ChunkManager.cpp:187-198 | a save started by the manager succeeds exactly when no region file and not the world file fails |
| Manager.UnmarkedSaveNothing | Source/VoxelWorld/ChunkManagement/ChunkManager.cpp:212-217 | after the callback cleared the flags, the next save contributes nothing |
| Manager.ColumnSize | Source/VoxelWorld/ChunkManagement/ChunkManager.cpp:81-83 | a column of the start area has `y1 - y0` chunks |
| Manager.RectSize | Source/VoxelWorld/ChunkManagement/ChunkManager.cpp:80-84 | a rectangle of chunk coordinates has width times height members |
| Manager.StartAreaSize | Source/VoxelWorld/ChunkManagement/ChunkManager.cpp:80-84 | a new world starts with 11 × 11 = 121 chunks |
| Manager.AssetFlags | Source/VoxelWorld/ChunkManagement/ChunkManager.cpp:140 | the chunk keeps one non-null flag per asset-list entry |
| Manager.ChunkManager.constructor | Source/VoxelWorld/ChunkManagement/ChunkManager.h:25-54 | the declared defaults: size 100, width 16, height 128, no chunks |
| Manager.ChunkManager.ReshuffleAssetList | Source/VoxelWorld/ChunkManagement/ChunkManager.cpp:30-74 | the new list is `Reshuffled` of the old one over the uninitialised buffer |
| Manager.ChunkManager.SpawnChunk | Source/VoxelWorld/ChunkManagement/ChunkManager.cpp:131-144 | a new chunk is stored under the position, replacing any chunk there. It has the manager's settings, regions 16 wide, the region, indices and name `Initialize` gives, every cell holding the id the noise hook generates and recorded as changed, and as sections the mesh of that grid (none without assets) |
| Manager.ChunkManager.GenerateNewWorld | Source/VoxelWorld/ChunkManagement/ChunkManager.cpp:78-85 | nothing without a chunk class; otherwise a fresh spawned chunk at each of the 121 start positions, every other chunk kept |
| Manager.ChunkManager.SpawnRows | Source/VoxelWorld/ChunkManagement/ChunkManager.cpp:80-84 | the outer loop adds exactly the chunks of rows -5 to 5 |
| Manager.ChunkManager.SpawnRow | Source/VoxelWorld/ChunkManagement/ChunkManager.cpp:81-83 | the inner loop adds exactly the chunks of one row, y from -5 to 5 |
| Manager.ChunkManager.SaveWorld | Source/VoxelWorld/ChunkManagement/ChunkManager.cpp:185-202 | the save is handed a valid world with region width 16, the manager's sizes, and every chunk once |
| Manager.ChunkManager.SaveWorldCallback | Source/VoxelWorld/ChunkManagement/ChunkManager.cpp:212-222 | whatever the result, no chunk is marked for saving and none records a changed voxel |
| Manager.ChunkManager.SpawnedAtKept | Source/VoxelWorld/ChunkManagement/ChunkManager.cpp:131-144 | a spawned chunk stays so while neither it nor the manager's settings change |
| Manager.ChunkManager.SpawnedCell | Source/VoxelWorld/ChunkManagement/ChunkActor.cpp:143-157 | cell `(x, y, z)` of a spawned chunk holds the distribution's id for `z` and the noise of column `(x, y)`, or 0, and so a valid id of the manager's asset list |

Proof steps that unfold one definition or combine two facts, with no source line of their own, have no row: `ReadWrite.DecodeVoxelsNext`, `ReadWrite.DecodePositionsNext`, `CodecProperties.DecodeChunkFields`, `WorldProperties.DecodeWorldFields`, `Names.DecodeAnsiFields`, `Names.DecodeUnitsFields`, `ChunkMesh.OnlyHeldTrans`, `Manager.MergeAssociates`, `Manager.MergeUpdates`, `Loading.StackAllLast`, `Loading.StepKeepsColumns`.

## Left out

- Threads, timers and singletons (`Run`, `Stop`, `EnsureCompletion`, `Shutdown`, `IsThreadFinished`, `JoyInit`, the polling callbacks): concurrency plumbing with no data behaviour. A save or load is one sequential call here.
- zlib and the file helpers: foreign code. A file is the archive it decompresses to, `Corrupt` when it cannot be read or decompressed, and a write fails when its path is in `failing`.
- `FPaths::FileExists` before a read is not modelled apart from the read, because a missing file fails the read the same way. `FPaths::ProjectSavedDir()` is the parameter `savedDir`.
- An archive read past its end gives `None`. The engine instead flags an error and leaves the values undefined.
- Floating point:
  - positions held in `FVector`/`FVector2D` are integers. The float-to-int rounding of `FMath::RoundToInt` (`ChunkManager.cpp:149-150`) is left out, and so is the loss of precision of a `float` coordinate above 2^24, both in the chunk position and in the placement transform of `ChunkManager.cpp:163-181`;
  - the 40% threshold is `5·max > 2·numOfVoxel`;
  - the world-position-to-cell conversion of `ReplaceVoxel` and `SetVoxel` is left out. `ReplaceVoxel` takes the cell instead, and the caller must name a cell of the grid because the code does not check.
- Chunks.ChunkActor.ReplaceVoxel: the cell is given as `(x, y, z)` and must lie in the grid, because the source indexes the grid without a range check.
- `AChunkManager::SetVoxel`, `GenerateWorldFromSave`, `WorldLoadedCallback` and `CheckWorldLoadDone` are not modelled. They are the float lookup of a chunk and the timer glue around a load.
- `SpawnChunk(position, information)` is modelled only for its placement transform (`ChunkCoords.SpawnPlacement`). Its actor creation repeats `SpawnChunk(position)` with `GenerateChunk(map)`.
- Engine calls are not modelled: the procedural mesh component, `CreateMeshSection`, `SetMaterial`, `SpawnActorDeferred`/`FinishSpawning` and transforms. `UpdateMesh` yields the sections as a map from id to record.
- Chunks.ChunkActor.UpdateMesh: requires a mesh component whenever the asset list is non-empty, because the source would dereference a null component.
- Logging (`PrintDebugWarning`, `UE_LOG`) and the editor notification of `ReshuffleAssetList`.
- The noise hook `CalculateNoiseValue` is the parameter `noiseOf`.
- An asset of the asset list matters only as null or non-null (`seq<bool>` in the chunk). The `VoxelAsset` fields other than its id are left out.
- The `TMap`s and `TSet`s of the save format (voxel maps, region positions) iterate in insertion order here. Slot reuse in the engine's sparse arrays after a `Remove` is not modelled. The manager's `chunks` is a Dafny `map` and has no order.
- Manager.ChunkManager.SaveWorld: the order in which the chunks reach the save is left arbitrary (the chunk list is built by choosing keys of `chunks` one at a time). Its `ensures` fixes which chunks are handed over, each once, but not their order. In the source that order decides the order of the regions written and of the sub-chunks inside each region file, so the bytes of a save started from the manager are not fixed by this model.
- Chunks.ChunkActor.GenerateChunkFromMap: the map is a Dafny `map` and is visited in an unspecified order. A negative key, which crashes the source, is excluded by `requires`.
- Saving.SaveManager.GatherChunkInformation: requires `h / w > 0` and no negative id (`Packable`), because the source divides by zero or indexes the histogram at a negative id otherwise.
- Loading.LoadManager.LoadWorld: requires `NoCrash`, i.e. every sub-chunk it restitches holds the voxels the loop reads, because the source's `containedVoxel[i]` fails an assertion otherwise.
- Manager.ChunkManager.ReshuffleAssetList: requires every id to be in `[0, 65536)`, the working array's size; a larger id would be written out of bounds. The slots no asset is written to keep the uninitialised buffer's values, passed as `junk`.
- The world name is stored in the engine's `FString` archive format, as 7-bit bytes or UTF-16 units under a signed count. Unicode normalisation and characters outside UTF-16 are left out.
- int32 overflow is modelled in the save format (wrap-around of stored ints, narrowing to `uint8`). It is not modelled in the chunk arithmetic, whose sizes are small.
- Manager.ChunkManager.SpawnedAtKept is a two-state lemma about the manager's heap.
- The `Valid()` invariant of a chunk holds after `Initialize` only. The declared defaults (`voxelSizeHalved` 8, not 100/2) are not mutually consistent, as in the source.

## Findings

| source | as written | input that shows it | evidently intended | confidence | as-written member | corrected member |
|---|---|---|---|---|---|---|
| Source/VoxelWorld/ChunkManagement/ChunkActor.cpp:66 | the Y-axis step assigns `chunkIndexX = (sign·chunkIndexY) % regionSize`, overwriting the X index from line 62 and leaving Y unreduced | chunk (3, 5) in regions of 16 gets indices (5, 5), and the name `Chunk_(5)_(5)_Reg55` | `chunkIndexY = (sign·chunkIndexY) % regionSize`, giving (3, 5) | not executed | ChunkCoords.InitializedIndicesLoseX | ChunkCoords.CorrectedIndicesPerAxis |
| Source/VoxelWorld/ChunkManagement/ChunkManager.cpp:163-181 | a loaded chunk is placed at `local + 16·region` with `local = |c| mod 16` | chunk X = -1: region -1, local 1, placed at -15 | a local index counted from the region's lower end, placing every chunk at its own coordinate | not executed | ChunkCoords.SpawnPlacementMirrors | ChunkCoords.CorrectedSpawnPlacementExact |

The chunk class keeps the indices as written (`Chunks.ChunkActor.Initialize`,
`Chunks.ChunkNameLosesX`). The save format stores them as each sub-chunk's
position (`Source/VoxelWorld/SaveGames/SaveManager.cpp:289`). A faithful model
of saving therefore has to carry the written values, and the corrected
functions are proved alongside them.
