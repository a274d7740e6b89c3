/**
  `AChunkManager`: the asset list it hands to every chunk, the chunks it has
  spawned, keyed by their chunk coordinates, and the steps around a save.
  Spawning an engine actor becomes allocating a `ChunkActor`; the engine
  transform it is placed at, the timers and the save thread are not part
  of this model.
*/
module Manager {
  import opened Wrappers
  import opened SaveInfo
  import opened Files
  import opened Paths
  import opened ReadWrite
  import opened ByteFields
  import opened ChunkCoords
  import opened ChunkMesh
  import opened ChunkFill
  import opened Chunks
  import opened Saving
  import Names
  import WorldProperties

  /** A `UVoxelAsset`; of its fields only the id matters here. */
  class VoxelAsset {
    const assetID: int

    constructor (assetID: int)
      ensures this.assetID == assetID
    {
      this.assetID := assetID;
    }
  }

  // ---------------------------------------------------------------------------
  // `ReshuffleAssetList`

  /** The number of slots of the working array. */
  const WorkingSize := 65536

  /** Every asset of `assets` has an id that indexes an array of `n` slots. */
  predicate IdsFit(assets: seq<VoxelAsset?>, n: int) {
    forall i :: 0 <= i < |assets| && assets[i] != null ==> 0 <= assets[i].assetID < n
  }

  /** The highest id among the assets of `assets`, starting from -1. */
  function HighestID(assets: seq<VoxelAsset?>): (h: int)
    ensures h >= -1
    ensures forall i :: 0 <= i < |assets| && assets[i] != null ==> assets[i].assetID <= h
    decreases |assets|
  {
    if assets == [] then -1
    else
      var h, a := HighestID(assets[..|assets| - 1]), assets[|assets| - 1];
      if a != null && h < a.assetID then a.assetID else h
  }

  /** The highest id is the id of some asset, unless it is -1. */
  lemma {:induction false} HighestIDAttained(assets: seq<VoxelAsset?>)
    ensures HighestID(assets) >= 0 ==>
      exists i :: 0 <= i < |assets| && assets[i] != null && assets[i].assetID == HighestID(assets)
    decreases |assets|
  {
    if assets != [] {
      var m := |assets| - 1;
      var h := HighestID(assets[..m]);
      HighestIDAttained(assets[..m]);
      if !(assets[m] != null && h < assets[m].assetID) && h >= 0 {
        var i :| 0 <= i < m && assets[..m][i] != null && assets[..m][i].assetID == h;
        assert assets[i] == assets[..m][i];
      }
    }
  }

  /** The last index of `assets` holding an asset with id `k`, or -1 when there is none. */
  function LastWith(assets: seq<VoxelAsset?>, k: int): (i: int)
    ensures -1 <= i < |assets|
    ensures i >= 0 ==> assets[i] != null && assets[i].assetID == k
    ensures forall j :: i < j < |assets| ==> assets[j] == null || assets[j].assetID != k
    decreases |assets|
  {
    if assets == [] then -1
    else
      var m := |assets| - 1;
      if assets[m] != null && assets[m].assetID == k then m else LastWith(assets[..m], k)
  }

  /** The working array after the first loop: each asset written at its id, over `junk`. */
  function Placed(assets: seq<VoxelAsset?>, junk: seq<VoxelAsset?>): (w: seq<VoxelAsset?>)
    requires IdsFit(assets, |junk|)
    ensures |w| == |junk|
    decreases |assets|
  {
    if assets == [] then junk
    else
      var m := |assets| - 1;
      var w := Placed(assets[..m], junk);
      if assets[m] != null then w[assets[m].assetID := assets[m]] else w
  }

  /** Slot `k` of the working array holds the last asset with id `k`, or is left as it was. */
  lemma {:induction false} PlacedAt(assets: seq<VoxelAsset?>, junk: seq<VoxelAsset?>, k: int)
    requires IdsFit(assets, |junk|) && 0 <= k < |junk|
    ensures Placed(assets, junk)[k] == if LastWith(assets, k) >= 0 then assets[LastWith(assets, k)] else junk[k]
    decreases |assets|
  {
    if assets != [] {
      PlacedAt(assets[..|assets| - 1], junk, k);
    }
  }

  /**
    The list `ReshuffleAssetList` leaves: the working array, which starts as
    the uninitialised `junk`, cut to the highest id plus one.
  */
  function Reshuffled(assets: seq<VoxelAsset?>, junk: seq<VoxelAsset?>): (r: seq<VoxelAsset?>)
    requires |junk| == WorkingSize && IdsFit(assets, WorkingSize)
    ensures |r| <= |junk|
  {
    HighestIDAttained(assets);
    Placed(assets, junk)[..HighestID(assets) + 1]
  }

  /**
    The reshuffled list is empty when no entry holds an asset; otherwise its
    length is the highest id plus one.
  */
  lemma ReshuffledLength(assets: seq<VoxelAsset?>, junk: seq<VoxelAsset?>)
    requires |junk| == WorkingSize && IdsFit(assets, WorkingSize)
    ensures var r := Reshuffled(assets, junk);
      (|r| == 0 <==> forall i :: 0 <= i < |assets| ==> assets[i] == null)
      && (|r| > 0 ==> exists i :: 0 <= i < |assets| && assets[i] != null && assets[i].assetID == |r| - 1)
      && forall i :: 0 <= i < |assets| && assets[i] != null ==> assets[i].assetID < |r|
  {
    HighestIDAttained(assets);
  }

  /**
    Slot `k` of the reshuffled list holds the last asset with id `k`; a slot
    no asset was written to keeps what the uninitialised buffer held.
  */
  lemma ReshuffledSlots(assets: seq<VoxelAsset?>, junk: seq<VoxelAsset?>)
    requires |junk| == WorkingSize && IdsFit(assets, WorkingSize)
    ensures var r := Reshuffled(assets, junk);
      forall k :: 0 <= k < |r| ==> r[k] == if LastWith(assets, k) >= 0 then assets[LastWith(assets, k)] else junk[k]
  {
    var r := Reshuffled(assets, junk);
    forall k | 0 <= k < |r|
      ensures r[k] == if LastWith(assets, k) >= 0 then assets[LastWith(assets, k)] else junk[k]
    {
      PlacedAt(assets, junk, k);
    }
  }

  /**
    Each asset lands at the slot of its id, unless a later entry has the same
    id, which then takes the slot instead.
  */
  lemma ReshuffledPlacesAssets(assets: seq<VoxelAsset?>, junk: seq<VoxelAsset?>, i: int)
    requires |junk| == WorkingSize && IdsFit(assets, WorkingSize)
    requires 0 <= i < |assets| && assets[i] != null
    ensures var r, k := Reshuffled(assets, junk), assets[i].assetID;
      0 <= k < |r|
      && (r[k] == assets[i] || exists j :: i < j < |assets| && assets[j] != null && assets[j].assetID == k && r[k] == assets[j])
  {
    var k := assets[i].assetID;
    ReshuffledLength(assets, junk);
    ReshuffledSlots(assets, junk);
    assert LastWith(assets, k) >= i;
  }

  // ---------------------------------------------------------------------------
  // The world a save starts from

  /** The world information `SaveWorld` hands to the save: valid, 16 chunks per region, the manager's sizes. */
  function WorldToSave(width: int, height: int): WorldInformation {
    DefaultWorld.(bValidInformation := true, chunkHeight := height, chunkWidth := width, regionWidth := 16)
  }

  /** With sizes that fit a byte, the world `SaveWorld` starts from is written and read back unchanged. */
  lemma WorldToSaveRoundTrip(width: int, height: int)
    requires 0 <= width < 256 && 0 <= height < 256
    ensures DecodeWorld(EncodeWorld(WorldToSave(width, height))) == Some(WorldToSave(width, height))
  {
    var w := WorldToSave(width, height);
    WorldToSaveEncodable(width, height);
    WorldProperties.DecodeWorldRoundTrip(w);
    DivModUnique(width, 256, 0, width);
    DivModUnique(height, 256, 0, height);
    DivModUnique(16, 256, 0, 16);
  }

  lemma WorldToSaveEncodable(width: int, height: int)
    ensures WorldProperties.WorldEncodable(WorldToSave(width, height))
  {
    Names.Utf16Length("DefaultWorld");
  }

  /**
    A save started by `SaveWorld` passes the validity check: it succeeds
    exactly when neither the world file nor a region file fails to write.
  */
  lemma WorldToSaveProceeds(width: int, height: int, saves: seq<ChunkSave>, savedDir: string,
                            files: FileStore, failing: set<string>)
    ensures SaveOutcome(WorldToSave(width, height), saves, savedDir, files, failing).succeeded
      <==> GetWorldPath(savedDir, "DefaultWorld") !in failing
           && NoRegionFileFails(Grouped(saves), RegionFiles(savedDir, "DefaultWorld"), failing)
  {
    SaveOutcomeSucceeds(WorldToSave(width, height), saves, savedDir, files, failing);
  }

  /** Chunks none of which is marked for saving contribute nothing to a save. */
  lemma {:induction false} UnmarkedSaveNothing(chunks: seq<ChunkActor>)
    requires forall i :: 0 <= i < |chunks| ==> !chunks[i].markedForSaving
    ensures AllPackable(chunks) && Saves(chunks) == []
    decreases |chunks|
  {
    if chunks != [] {
      UnmarkedSaveNothing(chunks[..|chunks| - 1]);
    }
  }

  // ---------------------------------------------------------------------------
  // `GenerateNewWorld`

  /** The chunk coordinates with `x0 <= x < x1` and `y0 <= y < y1`. */
  function Rect(x0: int, x1: int, y0: int, y1: int): set<Vec2i> {
    set x, y | x0 <= x < x1 && y0 <= y < y1 :: Vec2i(x, y)
  }

  /** The chunks a new world starts with: x and y from -5 to 5. */
  function StartArea(): set<Vec2i> {
    Rect(-5, 6, -5, 6)
  }

  lemma {:induction false} ColumnSize(x: int, y0: int, y1: int)
    requires y0 <= y1
    ensures |Rect(x, x + 1, y0, y1)| == y1 - y0
    decreases y1 - y0
  {
    if y1 > y0 {
      ColumnSize(x, y0, y1 - 1);
      assert Rect(x, x + 1, y0, y1) == Rect(x, x + 1, y0, y1 - 1) + {Vec2i(x, y1 - 1)};
    } else {
      EmptyIfNoMember(Rect(x, x + 1, y0, y1));
    }
  }

  /** A rectangle of chunk coordinates has width times height members. */
  lemma {:induction false} RectSize(x0: int, x1: int, y0: int, y1: int)
    requires x0 <= x1 && y0 <= y1
    ensures |Rect(x0, x1, y0, y1)| == (x1 - x0) * (y1 - y0)
    decreases x1 - x0
  {
    if x1 > x0 {
      RectSize(x0, x1 - 1, y0, y1);
      ColumnSize(x1 - 1, y0, y1);
      assert Rect(x0, x1, y0, y1) == Rect(x0, x1 - 1, y0, y1) + Rect(x1 - 1, x1, y0, y1);
      assert Rect(x0, x1 - 1, y0, y1) !! Rect(x1 - 1, x1, y0, y1);
      assert (x1 - x0) * (y1 - y0) == (x1 - 1 - x0) * (y1 - y0) + (y1 - y0);
    } else {
      EmptyIfNoMember(Rect(x0, x1, y0, y1));
    }
  }

  /** A new world starts with 11 by 11 chunks. */
  lemma StartAreaSize()
    ensures |StartArea()| == 121
  {
    RectSize(-5, 6, -5, 6);
  }

  /** The chunks `GenerateNewWorld` has spawned before reaching row `x`. */
  predicate SpawnedBefore(p: Vec2i, x: int) {
    -5 <= p.x < x && -5 <= p.y <= 5
  }

  /** The chunks of row `x` with y from -5 up to `y`, exclusive. */
  predicate InRow(p: Vec2i, x: int, y: int) {
    p.x == x && -5 <= p.y < y
  }

  /** Merging maps one after the other is merging the later ones first. */
  lemma MergeAssociates<K, V>(a: map<K, V>, b: map<K, V>, c: map<K, V>)
    ensures (a + b) + c == a + (b + c)
  {
  }

  /** Updating a merged map is updating the map merged last. */
  lemma MergeUpdates<K, V>(a: map<K, V>, b: map<K, V>, k: K, v: V)
    ensures (a + b)[k := v] == a + b[k := v]
  {
  }

  /** Which entries of the asset list reference an asset: what a chunk keeps of it. */
  function AssetFlags(assets: seq<VoxelAsset?>): (flags: seq<bool>)
    ensures |flags| == |assets|
  {
    seq(|assets|, i requires 0 <= i < |assets| => assets[i] != null)
  }

  // ---------------------------------------------------------------------------
  // The manager

  /** No chunk occurs twice, as in a `TSet`. */
  predicate NoRepeats(s: seq<ChunkActor>) {
    forall i, j :: 0 <= i < j < |s| ==> s[i] != s[j]
  }

  class ChunkManager {
    var voxelSize: int
    var chunkWidth: int
    /** `chunkHight`. */
    var chunkHeight: int
    var assetList: seq<VoxelAsset?>
    /** `chunkClass` is set. */
    var hasChunkClass: bool
    var chunks: map<Vec2i, ChunkActor>

    /** The defaults the class declares, with the chunk class and asset list set in the editor. */
    constructor (hasChunkClass: bool, assets: seq<VoxelAsset?>)
      ensures voxelSize == 100 && chunkWidth == 16 && chunkHeight == 128
      ensures assetList == assets && this.hasChunkClass == hasChunkClass && chunks == map[]
    {
      voxelSize := 100;
      chunkWidth := 16;
      chunkHeight := 128;
      assetList := assets;
      this.hasChunkClass := hasChunkClass;
      chunks := map[];
    }

    /**
      `ReshuffleAssetList`: every asset moves to the slot of its id, and the
      list is cut to the highest id plus one. `junk` is what the working
      array holds before the assets are written into it.
    */
    method ReshuffleAssetList(junk: seq<VoxelAsset?>)
      requires |junk| == WorkingSize && IdsFit(assetList, WorkingSize)
      modifies this`assetList
      ensures assetList == Reshuffled(old(assetList), junk)
    {
      var workingArray := junk;
      var highestID := -1;
      var i := 0;
      while i < |assetList|
        invariant 0 <= i <= |assetList|
        invariant workingArray == Placed(assetList[..i], junk)
        invariant highestID == HighestID(assetList[..i])
      {
        assert assetList[..i + 1][..i] == assetList[..i];
        if assetList[i] != null {
          var assetID := assetList[i].assetID;
          if highestID < assetID {
            highestID := assetID;
          }
          workingArray := workingArray[assetID := assetList[i]];
        }
        i := i + 1;
      }
      assert assetList[..i] == assetList;
      HighestIDAttained(assetList);
      var reshuffled: seq<VoxelAsset?> := seq(highestID + 1, _ => null);
      var j := 0;
      while j < |workingArray|
        invariant 0 <= j <= |workingArray|
        invariant |reshuffled| == highestID + 1
        invariant forall k :: 0 <= k < |reshuffled| ==> reshuffled[k] == if k < j then workingArray[k] else null
      {
        if j < |reshuffled| {
          reshuffled := reshuffled[j := workingArray[j]];
        }
        j := j + 1;
      }
      assetList := reshuffled;
    }

    /**
      `c` is what `SpawnChunk(position)` leaves. It is initialised with the
      manager's settings at `position`, with regions 16 chunks wide: its
      derived sizes, region, indices (as `Initialize` computes them) and
      name. It is then generated: every cell holds the id the noise hook
      gives it and is recorded as changed, and the sections are the mesh of
      that grid, or none without assets.
    */
    ghost predicate SpawnedAt(c: ChunkActor, position: Vec2i, noiseOf: (int, int) -> int)
      reads this`assetList, this`voxelSize, this`chunkWidth, this`chunkHeight, c
    {
      c.Valid() && c.hasComponent && c.markedForSaving
      && c.assetList == AssetFlags(assetList) && c.voxelSize == voxelSize
      && c.chunkWidth == chunkWidth && c.chunkHeight == chunkHeight && c.regionSize == ManagerRegionSize
      && c.voxelSizeHalved == TruncDiv(voxelSize, 2) && c.chunkOffset == TruncDiv(-chunkWidth, 2) * voxelSize
      && c.chunkIndexXOld == position.x && c.chunkIndexYOld == position.y
      && c.assignedRegion == Vec2i(RegionIndex(position.x, ManagerRegionSize), RegionIndex(position.y, ManagerRegionSize))
      && Vec2i(c.chunkIndexX, c.chunkIndexY) == InitializedIndices(position, ManagerRegionSize)
      && c.chunkName == ChunkName(c.chunkIndexX, c.chunkIndexY)
      && |c.voxelAssetIDs| == c.chunkTotalElements
      && (c.chunkWidth > 0 ==> forall i :: 0 <= i < |c.voxelAssetIDs| ==> c.voxelAssetIDs[i] == GeneratedAt(c.assetList, noiseOf, c.chunkWidth, i))
      && (forall i :: i in c.voxelAssetChanged <==> 0 <= i < c.chunkTotalElements)
      && c.sections == if |c.assetList| >= 1 then Sections(Mesh(c.Snapshot(), c.Dimensions())) else map[]
    }

    /**
      Cell `(x, y, z)` of a spawned chunk holds the id the distribution gives
      for height `z` and the noise of column `(x, y)`, or 0 when that id is
      not valid; either way a valid id of the manager's asset list.
    */
    lemma SpawnedCell(c: ChunkActor, p: Vec2i, noiseOf: (int, int) -> int, x: int, y: int, z: int)
      requires SpawnedAt(c, p, noiseOf)
      requires 0 <= x < chunkWidth && 0 <= y < chunkWidth && 0 <= z < chunkHeight
      ensures var i := Index(chunkWidth, chunkWidth * chunkWidth, x, y, z);
        0 <= i < |c.voxelAssetIDs| && c.voxelAssetIDs[i] == GeneratedID(AssetFlags(assetList), z, noiseOf(x, y))
        && IsValidVoxelID(AssetFlags(assetList), c.voxelAssetIDs[i])
    {
      var w := chunkWidth;
      LayerBound(w, x, y);
      VolumeBound(w * w, chunkHeight, x + y * w, z);
      Decompose(w, x, y, z);
    }

    /** A chunk that was spawned stays so while neither it nor the manager's settings change. */
    twostate lemma SpawnedAtKept(c: ChunkActor, p: Vec2i, noiseOf: (int, int) -> int)
      requires old(SpawnedAt(c, p, noiseOf)) && unchanged(c) && unchanged(this`assetList, this`voxelSize, this`chunkWidth, this`chunkHeight)
      ensures SpawnedAt(c, p, noiseOf)
    {
    }

    /**
      `SpawnChunk(position)`: a new chunk, initialised and generated, is
      stored under `position`, replacing any chunk stored there.
    */
    method SpawnChunk(position: Vec2i, noiseOf: (int, int) -> int)
      requires hasChunkClass && chunkWidth >= 0 && chunkHeight >= 0
      modifies this`chunks
      ensures position in chunks && fresh(chunks[position]) && SpawnedAt(chunks[position], position, noiseOf)
      ensures chunks == old(chunks)[position := chunks[position]]
    {
      var chunk := new ChunkActor();
      chunk.Initialize(AssetFlags(assetList), voxelSize, chunkWidth, chunkHeight, position, ManagerRegionSize);
      chunks := chunks[position := chunk];
      var generated := chunk.GenerateChunk(noiseOf);
    }

    /**
      `GenerateNewWorld`: nothing without a chunk class; otherwise a chunk is
      spawned at every position of the start area, and every other chunk is
      kept.
    */
    method GenerateNewWorld(noiseOf: (int, int) -> int)
      requires chunkWidth >= 0 && chunkHeight >= 0
      modifies this`chunks
      ensures !hasChunkClass ==> chunks == old(chunks)
      ensures hasChunkClass ==> chunks.Keys == old(chunks).Keys + StartArea()
      ensures hasChunkClass ==> forall p :: p in StartArea() ==> fresh(chunks[p]) && SpawnedAt(chunks[p], p, noiseOf)
      ensures forall p :: p in old(chunks) && p !in StartArea() ==> chunks[p] == old(chunks)[p]
    {
      if !hasChunkClass {
        return;
      }
      ghost var spawned := SpawnRows(noiseOf);
      assert forall p :: p in StartArea() <==> SpawnedBefore(p, 6);
      assert chunks.Keys == old(chunks).Keys + StartArea();
    }

    /** The outer loop of `GenerateNewWorld`: the rows x from -5 to 5, the new chunks collected in `spawned`. */
    method SpawnRows(noiseOf: (int, int) -> int) returns (ghost spawned: map<Vec2i, ChunkActor>)
      requires hasChunkClass && chunkWidth >= 0 && chunkHeight >= 0
      modifies this`chunks
      ensures chunks == old(chunks) + spawned
      ensures forall p :: p in spawned <==> SpawnedBefore(p, 6)
      ensures forall p :: p in spawned ==> fresh(spawned[p]) && SpawnedAt(spawned[p], p, noiseOf)
    {
      spawned := map[];
      var x := -5;
      while x <= 5
        invariant -5 <= x <= 6
        invariant chunks == old(chunks) + spawned
        invariant forall p :: p in spawned <==> SpawnedBefore(p, x)
        invariant forall p :: p in spawned ==> fresh(spawned[p]) && SpawnedAt(spawned[p], p, noiseOf)
      {
        ghost var row := SpawnRow(x, noiseOf);
        MergeAssociates(old(chunks), spawned, row);
        spawned := spawned + row;
        x := x + 1;
      }
    }

    /** The inner loop of `GenerateNewWorld`: the chunks at `x` and y from -5 to 5, collected in `row`. */
    method SpawnRow(x: int, noiseOf: (int, int) -> int) returns (ghost row: map<Vec2i, ChunkActor>)
      requires hasChunkClass && chunkWidth >= 0 && chunkHeight >= 0
      modifies this`chunks
      ensures chunks == old(chunks) + row
      ensures forall p :: p in row <==> InRow(p, x, 6)
      ensures forall p :: p in row ==> fresh(row[p]) && SpawnedAt(row[p], p, noiseOf)
    {
      row := map[];
      var y := -5;
      while y <= 5
        invariant -5 <= y <= 6
        invariant chunks == old(chunks) + row
        invariant forall p :: p in row <==> InRow(p, x, y)
        invariant forall p :: p in row ==> fresh(row[p]) && SpawnedAt(row[p], p, noiseOf)
      {
        SpawnChunk(Vec2i(x, y), noiseOf);
        MergeUpdates(old(chunks), row, Vec2i(x, y), chunks[Vec2i(x, y)]);
        row := row[Vec2i(x, y) := chunks[Vec2i(x, y)]];
        y := y + 1;
      }
    }

    /**
      `SaveWorld`: the save is handed a valid world with the manager's sizes
      and every chunk of the manager once.
    */
    method SaveWorld(savedDir: string) returns (saver: SaveManager)
      ensures fresh(saver) && saver.world == WorldToSave(chunkWidth, chunkHeight) && saver.savedDir == savedDir
      ensures (forall c :: c in saver.chunkList <==> c in chunks.Values) && NoRepeats(saver.chunkList)
    {
      var information := DefaultWorld;
      information := information.(bValidInformation := true);
      information := information.(chunkHeight := chunkHeight);
      information := information.(chunkWidth := chunkWidth);
      information := information.(regionWidth := 16);
      var chunkActor: seq<ChunkActor> := [];
      var keys := chunks.Keys;
      while keys != {}
        invariant keys <= chunks.Keys
        invariant forall c :: c in chunkActor <==> exists k :: k in chunks && k !in keys && chunks[k] == c
        invariant NoRepeats(chunkActor)
        decreases |keys|
      {
        if !exists k :: k in keys {
          EmptyIfNoMember(keys);
          assert false;
        }
        var k :| k in keys;
        if chunks[k] !in chunkActor {
          chunkActor := chunkActor + [chunks[k]];
        }
        keys := keys - {k};
      }
      saver := new SaveManager(information, chunkActor, savedDir);
    }

    /**
      `SaveWorldCallback`: whether or not the save succeeded, no chunk is
      marked for saving any more and none records a changed asset.
    */
    method SaveWorldCallback(succeeded: bool)
      modifies chunks.Values`markedForSaving, chunks.Values`voxelAssetChanged
      ensures forall c :: c in chunks.Values ==> !c.markedForSaving && c.voxelAssetChanged == {}
    {
      var keys := chunks.Keys;
      while keys != {}
        invariant keys <= chunks.Keys
        invariant forall k :: k in chunks && k !in keys ==> !chunks[k].markedForSaving && chunks[k].voxelAssetChanged == {}
        decreases |keys|
      {
        if !exists k :: k in keys {
          EmptyIfNoMember(keys);
          assert false;
        }
        var k :| k in keys;
        chunks[k].markedForSaving := false;
        chunks[k].voxelAssetChanged := {};
        keys := keys - {k};
      }
    }
  }
}
