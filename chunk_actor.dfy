/**
  `AChunkActor`: one column of voxels, its flat grid of asset ids and the
  mesh sections built from it. The procedural mesh component is modelled by
  whether it exists and the map of sections it holds.
*/
module Chunks {
  import opened SaveInfo
  import opened ChunkGeometry
  import opened ChunkMesh
  import opened ChunkFill
  import opened ChunkCoords
  import Paths

  /** The name `Initialize` gives a chunk from its two indices. */
  function ChunkName(indexX: int, indexY: int): string {
    "Chunk_(" + Paths.IntToString(indexX) + ")_(" + Paths.IntToString(indexY) + ")_Reg"
      + Paths.IntToString(indexX) + Paths.IntToString(indexY)
  }

  /** Chunk (3, 5) in regions of 16 is named after its Y index twice over. */
  lemma ChunkNameLosesX()
    ensures var indices := InitializedIndices(Vec2i(3, 5), 16);
      ChunkName(indices.x, indices.y) == "Chunk_(5)_(5)_Reg55"
  {
    InitializedIndicesLoseX();
  }

  class ChunkActor {
    var assetList: seq<bool>      // one entry per asset: does it reference an asset
    var regionSize: int
    var chunkTotalElements: int
    var hasComponent: bool        // the procedural mesh component exists
    var sections: map<int, MeshRecord>
    var assignedRegion: Vec2i
    var voxelAssetIDs: seq<int>
    var markedForSaving: bool
    var voxelAssetChanged: set<int>
    var voxelSize: int
    var chunkWidth: int
    var chunkHeight: int
    var voxelSizeHalved: int
    var chunkWidthSquared: int
    var chunkIndexX: int
    var chunkIndexXOld: int
    var chunkIndexYOld: int
    var chunkIndexY: int
    var chunkOffset: int
    var chunkName: string

    /** The defaults the class declares; a field without one is zeroed. */
    constructor ()
      ensures assetList == [] && regionSize == 16 && chunkTotalElements == 0
      ensures !hasComponent && sections == map[]
      ensures assignedRegion == Vec2i(0, 0) && voxelAssetIDs == [] && !markedForSaving && voxelAssetChanged == {}
      ensures voxelSize == 100 && chunkWidth == 16 && chunkHeight == 128
      ensures voxelSizeHalved == 8 && chunkWidthSquared == 256
      ensures chunkIndexX == 0 && chunkIndexXOld == 0 && chunkIndexYOld == 0 && chunkIndexY == 0
      ensures chunkOffset == -800 && chunkName == "defaultName"
    {
      assetList := [];
      regionSize := 16;
      chunkTotalElements := 0;
      hasComponent := false;
      sections := map[];
      assignedRegion := Vec2i(0, 0);
      voxelAssetIDs := [];
      markedForSaving := false;
      voxelAssetChanged := {};
      voxelSize := 100;
      chunkWidth := 16;
      chunkHeight := 128;
      voxelSizeHalved := 8;
      chunkWidthSquared := 256;
      chunkIndexX := 0;
      chunkIndexXOld := 0;
      chunkIndexYOld := 0;
      chunkIndexY := 0;
      chunkOffset := -800;
      chunkName := "defaultName";
    }

    /** The grid fields the mesher reads. */
    function Snapshot(): Grid
      reads this`assetList, this`voxelAssetIDs, this`chunkWidth, this`chunkWidthSquared, this`chunkHeight
    {
      Grid(assetList, voxelAssetIDs, chunkWidth, chunkWidthSquared, chunkHeight)
    }

    function Dimensions(): Sizes
      reads this`voxelSize, this`voxelSizeHalved, this`chunkOffset
    {
      Sizes(voxelSize, voxelSizeHalved, chunkOffset)
    }

    /** The derived sizes agree with the width and height, and the grid holds every cell. */
    ghost predicate Valid()
      reads this`assetList, this`voxelAssetIDs, this`chunkWidth, this`chunkWidthSquared, this`chunkHeight, this`chunkTotalElements
    {
      GridValid(Snapshot()) && chunkTotalElements == chunkWidthSquared * chunkHeight
    }

    /**
      `AChunkActor::Initialize`: the sizes and their derived values, the
      region of the chunk and its indices inside it, and its name. The grid
      is resized to one entry per cell; entries it already had are kept and
      new ones are left unspecified.
    */
    method Initialize(assets: seq<bool>, size: int, width: int, height: int, position: Vec2i, regions: int)
      requires regions != 0 && width >= 0 && height >= 0
      modifies this`assetList, this`voxelSize, this`chunkWidth, this`chunkHeight, this`regionSize
      modifies this`chunkIndexX, this`chunkIndexY, this`chunkIndexXOld, this`chunkIndexYOld
      modifies this`chunkTotalElements, this`voxelSizeHalved, this`chunkWidthSquared, this`chunkOffset, this`voxelAssetIDs
      modifies this`assignedRegion, this`chunkName
      ensures Valid() && |voxelAssetIDs| == chunkTotalElements
      ensures assetList == assets && voxelSize == size && chunkWidth == width && chunkHeight == height && regionSize == regions
      ensures chunkIndexXOld == position.x && chunkIndexYOld == position.y
      ensures chunkTotalElements == width * width * height && chunkWidthSquared == width * width
      ensures voxelSizeHalved == TruncDiv(size, 2) && chunkOffset == TruncDiv(-width, 2) * size
      ensures forall i :: 0 <= i < |voxelAssetIDs| && i < |old(voxelAssetIDs)| ==> voxelAssetIDs[i] == old(voxelAssetIDs)[i]
      ensures assignedRegion == Vec2i(RegionIndex(position.x, regions), RegionIndex(position.y, regions))
      ensures Vec2i(chunkIndexX, chunkIndexY) == InitializedIndices(position, regions)
      ensures chunkName == ChunkName(chunkIndexX, chunkIndexY)
    {
      SetSettings(assets, size, width, height, position, regions);
      DeriveSizes();
      AssignRegion();
      chunkName := ChunkName(chunkIndexX, chunkIndexY);
    }

    /** The settings `Initialize` copies from its arguments; both indices start as the position. */
    method SetSettings(assets: seq<bool>, size: int, width: int, height: int, position: Vec2i, regions: int)
      modifies this`assetList, this`voxelSize, this`chunkWidth, this`chunkHeight, this`regionSize
      modifies this`chunkIndexX, this`chunkIndexY, this`chunkIndexXOld, this`chunkIndexYOld
      ensures assetList == assets && voxelSize == size && chunkWidth == width && chunkHeight == height && regionSize == regions
      ensures chunkIndexX == position.x && chunkIndexY == position.y
      ensures chunkIndexXOld == position.x && chunkIndexYOld == position.y
    {
      assetList := assets;
      voxelSize := size;
      chunkWidth := width;
      chunkHeight := height;
      regionSize := regions;
      chunkIndexX := position.x;
      chunkIndexY := position.y;
      chunkIndexXOld := chunkIndexX;
      chunkIndexYOld := chunkIndexY;
    }

    /** The sizes `Initialize` derives from the settings, and the grid resized to one entry per cell. */
    method DeriveSizes()
      requires chunkWidth >= 0 && chunkHeight >= 0
      modifies this`chunkTotalElements, this`voxelSizeHalved, this`chunkWidthSquared, this`chunkOffset, this`voxelAssetIDs
      ensures Valid() && |voxelAssetIDs| == chunkTotalElements
      ensures chunkTotalElements == chunkWidth * chunkWidth * chunkHeight && chunkWidthSquared == chunkWidth * chunkWidth
      ensures voxelSizeHalved == TruncDiv(voxelSize, 2) && chunkOffset == TruncDiv(-chunkWidth, 2) * voxelSize
      ensures forall i :: 0 <= i < |voxelAssetIDs| && i < |old(voxelAssetIDs)| ==> voxelAssetIDs[i] == old(voxelAssetIDs)[i]
    {
      chunkTotalElements := chunkWidth * chunkWidth * chunkHeight;
      voxelSizeHalved := TruncDiv(voxelSize, 2);
      chunkWidthSquared := chunkWidth * chunkWidth;
      chunkOffset := TruncDiv(-chunkWidth, 2) * voxelSize;
      assert chunkTotalElements >= 0 by {
        MulLe(0, chunkWidth * chunkWidth, chunkHeight);
      }
      if chunkTotalElements <= |voxelAssetIDs| {
        voxelAssetIDs := voxelAssetIDs[..chunkTotalElements];
      } else {
        voxelAssetIDs := voxelAssetIDs + seq(chunkTotalElements - |voxelAssetIDs|, _ => 0);
      }
    }

    /** The region `Initialize` assigns and the indices it leaves, from the indices it was given. */
    method AssignRegion()
      requires regionSize != 0
      modifies this`assignedRegion, this`chunkIndexX
      ensures assignedRegion == Vec2i(RegionIndex(old(chunkIndexX), regionSize), RegionIndex(chunkIndexY, regionSize))
      ensures Vec2i(chunkIndexX, chunkIndexY) == InitializedIndices(Vec2i(old(chunkIndexX), chunkIndexY), regionSize)
    {
      var indexX := chunkIndexX;
      if indexX < 0 {
        indexX := indexX - regionSize + 1;
      }
      var indexY := chunkIndexY;
      if indexY < 0 {
        indexY := indexY - regionSize + 1;
      }
      assignedRegion := Vec2i(TruncDiv(indexX, regionSize), TruncDiv(indexY, regionSize));

      var sign := Sign(assignedRegion.x);
      if sign == 0 {
        sign := 1;
      }
      chunkIndexX := TruncMod(sign * chunkIndexX, regionSize);
      sign := Sign(assignedRegion.y);
      if sign == 0 {
        sign := 1;
      }
      chunkIndexX := TruncMod(sign * chunkIndexY, regionSize);
    }

    /**
      `AChunkActor::UpdateMesh`: without assets it fails and leaves the
      sections alone; otherwise the sections become those of the mesh the
      scan builds from the grid.
    */
    method UpdateMesh() returns (succeeded: bool)
      requires Valid() && (|assetList| >= 1 ==> hasComponent)
      modifies this`sections
      ensures succeeded <==> |assetList| >= 1
      ensures succeeded ==> sections == Sections(Mesh(Snapshot(), Dimensions()))
      ensures !succeeded ==> sections == old(sections)
    {
      if |assetList| < 1 {
        return false;
      }
      var g, s := Snapshot(), Dimensions();
      var empty := FreshRecords(|assetList|);
      var records := empty;
      var x := 0;
      while x < chunkWidth
        invariant 0 <= x <= chunkWidth
        invariant records == Slice(empty, g, s, x)
      {
        var y := 0;
        while y < chunkWidth
          invariant 0 <= y <= chunkWidth
          invariant records == Row(Slice(empty, g, s, x), g, s, x, y)
        {
          var z := 0;
          while z < chunkHeight
            invariant 0 <= z <= chunkHeight
            invariant records == Column(Row(Slice(empty, g, s, x), g, s, x, y), g, s, x, y, z)
          {
            records := MeshCell(records, empty, x, y, z);
            z := z + 1;
          }
          y := y + 1;
        }
        x := x + 1;
      }

      sections := map[];
      var i := 1;
      while i < |records|
        invariant 1 <= i <= |records|
        invariant sections == map j | 1 <= j < i && |records[j].vertices| > 0 :: records[j]
      {
        if |records[i].vertices| > 0 {
          sections := sections[i := records[i]];
        }
        i := i + 1;
      }
      return true;
    }

    /** One cell of the scan in `UpdateMesh`: the faces of the voxel at `(x, y, z)` added to its id's record. */
    method MeshCell(records: seq<MeshRecord>, empty: seq<MeshRecord>, x: int, y: int, z: int) returns (records': seq<MeshRecord>)
      requires Valid() && InChunk(Snapshot(), x, y, z) && empty == FreshRecords(|assetList|)
      requires records == Column(Row(Slice(empty, Snapshot(), Dimensions(), x), Snapshot(), Dimensions(), x, y), Snapshot(), Dimensions(), x, y, z)
      ensures records' == StepCell(records, Snapshot(), Dimensions(), x, y, z)
    {
      var g, s := Snapshot(), Dimensions();
      var index := x + y * chunkWidth + z * chunkWidthSquared;
      CellIndexBound(g, x, y, z);
      var voxelAssetID := voxelAssetIDs[index];
      if voxelAssetID == 0 || !IsValidVoxelID(assetList, voxelAssetID) {
        return records;
      }
      CellWellFormed(empty, g, s, x, y, z);
      var rec := records[voxelAssetID];
      var numOfTriangle := 0;
      var i := 0;
      while i < 6
        invariant 0 <= i <= 6
        invariant rec == VoxelUpTo(records[voxelAssetID], g, s, x, y, z, i)
        invariant numOfTriangle == 4 * FaceCount(g, x, y, z, i)
        invariant rec.elementID == records[voxelAssetID].elementID
        invariant |rec.vertices| == rec.elementID + numOfTriangle
      {
        var flag := FaceFlag(index, x, y, z, i);
        if flag {
          AddFaceShape(rec, s, x, y, z, i);
          rec := AppendFace(rec, numOfTriangle, x, y, z, i);
          numOfTriangle := numOfTriangle + 4;
        }
        i := i + 1;
      }
      rec := rec.(elementID := rec.elementID + numOfTriangle);
      records' := records[voxelAssetID := rec];
    }

    /** Whether the voxel at `(x, y, z)`, flat index `index`, shows its face in direction `i`. */
    method FaceFlag(index: int, x: int, y: int, z: int, i: int) returns (flag: bool)
      requires index == Index(chunkWidth, chunkWidthSquared, x, y, z) && 0 <= i < 6
      ensures flag == Emits(Snapshot(), x, y, z, i)
    {
      var m := BMask[i];
      var newIndex := index + m.x + m.y * chunkWidth + m.z * chunkWidthSquared;
      flag := false;
      if x + m.x < chunkWidth && x + m.x >= 0 && y + m.y < chunkWidth && y + m.y >= 0 {
        if 0 <= newIndex < |voxelAssetIDs| {
          if voxelAssetIDs[newIndex] < 1 {
            flag := true;
          }
        }
      } else {
        flag := true;
      }
    }

    /**
      One face appended to the record of the voxel's id. The triangle indices
      are offset by the triangles counted so far plus `elementID`, which is
      the record's vertex count.
    */
    method AppendFace(rec: MeshRecord, numOfTriangle: int, x: int, y: int, z: int, i: int) returns (rec': MeshRecord)
      requires |rec.vertices| == rec.elementID + numOfTriangle && 0 <= i < 6
      ensures rec' == AddFace(rec, Dimensions(), x, y, z, i)
    {
      var base := numOfTriangle + rec.elementID;
      var color := Color(255, 255, 255, i);
      assert Shifted(BTriangles, base) == [BTriangles[0] + base, BTriangles[1] + base, BTriangles[2] + base,
                                           BTriangles[3] + base, BTriangles[4] + base, BTriangles[5] + base];
      rec' := rec.(triangles := rec.triangles + [BTriangles[0] + base, BTriangles[1] + base, BTriangles[2] + base,
                                                 BTriangles[3] + base, BTriangles[4] + base, BTriangles[5] + base],
                   vertices := rec.vertices + FaceVertices(Dimensions(), x, y, z, i),
                   normals := rec.normals + BNormals[i],
                   uvs := rec.uvs + BUVs,
                   vertexColors := rec.vertexColors + [color, color, color, color]);
    }

    /**
      `AChunkActor::GenerateChunk(chunkMap)`: a new mesh component, every
      pair of the map written into the grid (which grows, zero-filled, to
      hold a key past its end), then the mesh update.
    */
    method GenerateChunkFromMap(chunkMap: map<int, int>) returns (succeeded: bool)
      requires Valid() && forall k :: k in chunkMap ==> k >= 0
      modifies this`hasComponent, this`sections, this`voxelAssetIDs
      ensures Valid() && hasComponent
      ensures |voxelAssetIDs| >= |old(voxelAssetIDs)|
      ensures forall k :: k in chunkMap ==> k < |voxelAssetIDs|
      ensures |voxelAssetIDs| > |old(voxelAssetIDs)| ==> |voxelAssetIDs| - 1 in chunkMap
      ensures forall i :: 0 <= i < |voxelAssetIDs| ==>
        voxelAssetIDs[i] == if i in chunkMap then chunkMap[i] else if i < |old(voxelAssetIDs)| then old(voxelAssetIDs)[i] else 0
      ensures succeeded <==> |assetList| >= 1
      ensures succeeded ==> sections == Sections(Mesh(Snapshot(), Dimensions()))
      ensures !succeeded ==> sections == map[]
    {
      hasComponent := true;
      sections := map[];
      WriteMap(chunkMap);
      succeeded := UpdateMesh();
    }

    /** The loop of `GenerateChunk(chunkMap)` over the map's pairs, in the map's own order. */
    method WriteMap(chunkMap: map<int, int>)
      requires Valid() && forall k :: k in chunkMap ==> k >= 0
      modifies this`voxelAssetIDs
      ensures Valid() && |voxelAssetIDs| >= |old(voxelAssetIDs)|
      ensures forall k :: k in chunkMap ==> k < |voxelAssetIDs|
      ensures |voxelAssetIDs| > |old(voxelAssetIDs)| ==> |voxelAssetIDs| - 1 in chunkMap
      ensures forall i :: 0 <= i < |voxelAssetIDs| ==>
        voxelAssetIDs[i] == if i in chunkMap then chunkMap[i] else if i < |old(voxelAssetIDs)| then old(voxelAssetIDs)[i] else 0
    {
      ghost var ids0 := voxelAssetIDs;
      var keys := chunkMap.Keys;
      while keys != {}
        invariant keys <= chunkMap.Keys
        invariant Valid() && |voxelAssetIDs| >= |ids0|
        invariant forall k :: k in chunkMap && k !in keys ==> k < |voxelAssetIDs|
        invariant |voxelAssetIDs| > |ids0| ==> |voxelAssetIDs| - 1 in chunkMap && |voxelAssetIDs| - 1 !in keys
        invariant forall i :: 0 <= i < |voxelAssetIDs| ==>
          voxelAssetIDs[i] == if i in chunkMap && i !in keys then chunkMap[i] else if i < |ids0| then ids0[i] else 0
        decreases |keys|
      {
        if !exists k :: k in keys {
          EmptyIfNoMember(keys);
          assert false;
        }
        var key :| key in keys;
        if !(0 <= key < |voxelAssetIDs|) {
          voxelAssetIDs := voxelAssetIDs + seq(key + 1 - |voxelAssetIDs|, _ => 0);
        }
        voxelAssetIDs := voxelAssetIDs[key := chunkMap[key]];
        keys := keys - {key};
      }
    }

    /**
      `AChunkActor::GenerateChunk()`: a new mesh component, the chunk marked
      for saving, one noise value per column from `noiseOf` (the chunk's
      noise hook), then every cell set to the id the distribution gives, or
      0 when that id is not valid, and recorded as changed; then the mesh
      update.
    */
    method GenerateChunk(noiseOf: (int, int) -> int) returns (succeeded: bool)
      requires Valid()
      modifies this`hasComponent, this`sections, this`markedForSaving, this`voxelAssetIDs, this`voxelAssetChanged
      ensures Valid() && hasComponent && markedForSaving
      ensures |voxelAssetIDs| == |old(voxelAssetIDs)|
      ensures forall i :: 0 <= i < |voxelAssetIDs| ==>
        voxelAssetIDs[i] == if i < chunkTotalElements && chunkWidth > 0 then GeneratedAt(assetList, noiseOf, chunkWidth, i) else old(voxelAssetIDs)[i]
      ensures forall i :: i in voxelAssetChanged <==> i in old(voxelAssetChanged) || 0 <= i < chunkTotalElements
      ensures succeeded <==> |assetList| >= 1
      ensures succeeded ==> sections == Sections(Mesh(Snapshot(), Dimensions()))
      ensures !succeeded ==> sections == map[]
    {
      hasComponent := true;
      sections := map[];
      markedForSaving := true;
      var w, h := chunkWidth, chunkHeight;
      var noise := NoiseField(noiseOf);

      FillCells(noise);
      if w > 0 {
        GeneratedFromNoise(noise, noiseOf, assetList, w, chunkTotalElements);
      }
      succeeded := UpdateMesh();
    }

    /** The noise loop of `GenerateChunk()`: the noise of column `(x, y)` stored at `x + y * chunkWidth`. */
    method NoiseField(noiseOf: (int, int) -> int) returns (noise: seq<int>)
      requires Valid()
      ensures |noise| == chunkWidthSquared
      ensures chunkWidth > 0 ==> NoiseUpTo(noise, noiseOf, chunkWidth, chunkWidth, 0)
    {
      var w := chunkWidth;
      noise := seq(chunkWidthSquared, _ => 0);
      if w > 0 {
        NoiseStart(noiseOf, w);
      }
      var x := 0;
      while x < chunkWidth
        invariant 0 <= x <= w && |noise| == w * w
        invariant w > 0 ==> NoiseUpTo(noise, noiseOf, w, x, 0)
      {
        var y := 0;
        while y < chunkWidth
          invariant 0 <= y <= w && NoiseUpTo(noise, noiseOf, w, x, y)
        {
          NoiseStep(noise, noiseOf, w, x, y);
          noise := noise[x + y * chunkWidth := noiseOf(x, y)];
          y := y + 1;
        }
        NoiseNextRow(noise, noiseOf, w, x);
        x := x + 1;
      }
    }

    /** The cell loop of `GenerateChunk()`: every cell of the chunk set from the noise array and recorded as changed. */
    method FillCells(noise: seq<int>)
      requires Valid() && |noise| == chunkWidthSquared
      modifies this`voxelAssetIDs, this`voxelAssetChanged
      ensures Valid() && |voxelAssetIDs| == |old(voxelAssetIDs)|
      ensures forall i :: 0 <= i < |voxelAssetIDs| ==>
        voxelAssetIDs[i] == if i < chunkTotalElements && chunkWidth > 0 then CellID(assetList, noise, chunkWidth, i) else old(voxelAssetIDs)[i]
      ensures forall i :: i in voxelAssetChanged <==> i in old(voxelAssetChanged) || 0 <= i < chunkTotalElements
    {
      var w, h := chunkWidth, chunkHeight;
      ghost var ids0, changed0 := voxelAssetIDs, voxelAssetChanged;
      var x := 0;
      while x < chunkWidth
        invariant 0 <= x <= w && Valid() && |voxelAssetIDs| == |ids0|
        invariant w > 0 ==> FilledUpTo(voxelAssetIDs, ids0, assetList, noise, w, h, x, 0, 0)
        invariant w > 0 ==> voxelAssetChanged == changed0 + CellsBefore(w, h, x, 0, 0)
        invariant w == 0 ==> voxelAssetIDs == ids0 && voxelAssetChanged == changed0
      {
        FillSlice(noise, ids0, changed0, x);
        FillNextRow(voxelAssetIDs, ids0, assetList, noise, w, h, x);
        x := x + 1;
      }
      if w > 0 {
        FillDone(voxelAssetIDs, ids0, assetList, noise, w, h);
      }
    }

    /** The columns of slice `x` in the cell loop of `GenerateChunk()`. */
    method FillSlice(noise: seq<int>, ghost ids0: seq<int>, ghost changed0: set<int>, x: int)
      requires Valid() && 0 <= x < chunkWidth
      requires FilledUpTo(voxelAssetIDs, ids0, assetList, noise, chunkWidth, chunkHeight, x, 0, 0)
      requires voxelAssetChanged == changed0 + CellsBefore(chunkWidth, chunkHeight, x, 0, 0)
      modifies this`voxelAssetIDs, this`voxelAssetChanged
      ensures Valid() && |voxelAssetIDs| == |old(voxelAssetIDs)|
      ensures FilledUpTo(voxelAssetIDs, ids0, assetList, noise, chunkWidth, chunkHeight, x, chunkWidth, 0)
      ensures voxelAssetChanged == changed0 + CellsBefore(chunkWidth, chunkHeight, x, chunkWidth, 0)
    {
      var y := 0;
      while y < chunkWidth
        invariant 0 <= y <= chunkWidth && Valid() && |voxelAssetIDs| == |old(voxelAssetIDs)|
        invariant FilledUpTo(voxelAssetIDs, ids0, assetList, noise, chunkWidth, chunkHeight, x, y, 0)
        invariant voxelAssetChanged == changed0 + CellsBefore(chunkWidth, chunkHeight, x, y, 0)
      {
        FillColumn(noise, ids0, changed0, x, y);
        y := y + 1;
      }
    }

    /** The cells of column `(x, y)` in the cell loop of `GenerateChunk()`. */
    method FillColumn(noise: seq<int>, ghost ids0: seq<int>, ghost changed0: set<int>, x: int, y: int)
      requires Valid() && 0 <= x < chunkWidth && 0 <= y < chunkWidth
      requires FilledUpTo(voxelAssetIDs, ids0, assetList, noise, chunkWidth, chunkHeight, x, y, 0)
      requires voxelAssetChanged == changed0 + CellsBefore(chunkWidth, chunkHeight, x, y, 0)
      modifies this`voxelAssetIDs, this`voxelAssetChanged
      ensures Valid() && |voxelAssetIDs| == |old(voxelAssetIDs)|
      ensures FilledUpTo(voxelAssetIDs, ids0, assetList, noise, chunkWidth, chunkHeight, x, y + 1, 0)
      ensures voxelAssetChanged == changed0 + CellsBefore(chunkWidth, chunkHeight, x, y + 1, 0)
    {
      var w, h := chunkWidth, chunkHeight;
      var z := 0;
      while z < chunkHeight
        invariant 0 <= z <= h && Valid() && |voxelAssetIDs| == |old(voxelAssetIDs)|
        invariant FilledUpTo(voxelAssetIDs, ids0, assetList, noise, w, h, x, y, z)
        invariant voxelAssetChanged == changed0 + CellsBefore(w, h, x, y, z)
      {
        var index := x + y * chunkWidth + z * chunkWidthSquared;
        FillStep(voxelAssetIDs, ids0, assetList, noise, w, h, x, y, z);
        var voxelAssetID := VoxelAssetDistribution(z, noise[x + y * chunkWidth]);
        voxelAssetChanged := voxelAssetChanged + {index};
        if IsValidVoxelID(assetList, voxelAssetID) {
          voxelAssetIDs := voxelAssetIDs[index := voxelAssetID];
        } else {
          voxelAssetIDs := voxelAssetIDs[index := 0];
        }
        z := z + 1;
      }
      FillNextColumn(voxelAssetIDs, ids0, assetList, noise, w, h, x, y);
    }

    /**
      `AChunkActor::ReplaceVoxel`, from the cell the rounded position falls
      in: an invalid id is refused; otherwise the cell takes the id and the
      mesh is updated. When the update fails the old id is put back; when it
      succeeds the chunk is marked for saving and the cell recorded as
      changed. The cell is not range-checked: the caller must name a cell
      of the grid.
    */
    method ReplaceVoxel(x: int, y: int, z: int, voxelID: int) returns (succeeded: bool)
      requires Valid() && (|assetList| >= 1 ==> hasComponent)
      requires IsValidVoxelID(assetList, voxelID) ==> 0 <= Index(chunkWidth, chunkWidthSquared, x, y, z) < |voxelAssetIDs|
      modifies this`sections, this`markedForSaving, this`voxelAssetIDs, this`voxelAssetChanged
      ensures Valid()
      ensures succeeded <==> IsValidVoxelID(assetList, voxelID) && |assetList| >= 1
      ensures succeeded ==> var index := Index(chunkWidth, chunkWidthSquared, x, y, z);
        && voxelAssetIDs == old(voxelAssetIDs)[index := voxelID]
        && markedForSaving && voxelAssetChanged == old(voxelAssetChanged) + {index}
        && sections == Sections(Mesh(Snapshot(), Dimensions()))
      ensures !succeeded ==> (voxelAssetIDs == old(voxelAssetIDs) && sections == old(sections)
        && markedForSaving == old(markedForSaving) && voxelAssetChanged == old(voxelAssetChanged))
    {
      if !IsValidVoxelID(assetList, voxelID) {
        return false;
      }
      var index := x + y * chunkWidth + z * chunkWidthSquared;
      var voxelIDold := voxelAssetIDs[index];
      voxelAssetIDs := voxelAssetIDs[index := voxelID];
      succeeded := UpdateMesh();
      if !succeeded {
        voxelAssetIDs := voxelAssetIDs[index := voxelIDold];
        return false;
      }
      markedForSaving := true;
      voxelAssetChanged := voxelAssetChanged + {index};
    }
  }

  /** A set with no member is empty. */
  lemma EmptyIfNoMember<T>(s: set<T>)
    requires forall k :: k !in s
    ensures s == {}
  {
    assert forall k :: k in s <==> k in {};
  }

  /** Every record the scan has built so far is well formed, so `elementID` counts its vertices. */
  lemma CellWellFormed(empty: seq<MeshRecord>, g: Grid, s: Sizes, x: int, y: int, z: int)
    requires GridValid(g) && InChunk(g, x, y, z) && empty == FreshRecords(|g.assetList|)
    ensures AllWellFormed(Column(Row(Slice(empty, g, s, x), g, s, x, y), g, s, x, y, z))
  {
    EmptyRecordWellFormed();
    SliceWellFormed(empty, g, s, x);
    RowWellFormed(Slice(empty, g, s, x), g, s, x, y);
    ColumnWellFormed(Row(Slice(empty, g, s, x), g, s, x, y), g, s, x, y, z);
  }
}
