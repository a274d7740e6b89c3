/**
  What `AChunkActor::UpdateMesh` computes, as functions of the chunk's grid:
  which faces a voxel emits, what a voxel adds to the record of its id, and
  the scan over every cell in x, y, z order.
*/
module ChunkMesh {
  import opened ChunkGeometry

  /** The chunk fields the mesher reads. */
  datatype Grid = Grid(assetList: seq<bool>, voxelAssetIDs: seq<int>, chunkWidth: int, chunkWidthSquared: int, chunkHeight: int)

  /** The sizes agree and the flat grid holds every cell. */
  ghost predicate GridValid(g: Grid) {
    0 <= g.chunkWidth && 0 <= g.chunkHeight && g.chunkWidthSquared == g.chunkWidth * g.chunkWidth
    && 0 <= g.chunkWidthSquared * g.chunkHeight <= |g.voxelAssetIDs|
  }

  /** `AChunkActor::IsValidVoxelID`: 0 always; any other id must name a non-null asset. */
  predicate IsValidVoxelID(assetList: seq<bool>, assetID: int) {
    assetID == 0 || (0 <= assetID < |assetList| && assetList[assetID])
  }

  /** The flat index of cell `(x, y, z)`. */
  function Index(w: int, ws: int, x: int, y: int, z: int): int {
    x + y * w + z * ws
  }

  predicate InChunk(g: Grid, x: int, y: int, z: int) {
    0 <= x < g.chunkWidth && 0 <= y < g.chunkWidth && 0 <= z < g.chunkHeight
  }

  lemma MulLe(a: int, b: int, c: int)
    requires a <= b && 0 <= c
    ensures a * c <= b * c
  {
  }

  /** A column's cells lie in one layer: `x + y * w < w * w`. */
  lemma LayerBound(w: int, x: int, y: int)
    requires 0 <= x < w && 0 <= y < w
    ensures 0 <= x + y * w < w * w
  {
    MulLe(y, w - 1, w);
    assert (w - 1) * w == w * w - w;
  }

  /** A layer's cells lie in the chunk: `i + z * q < q * h`. */
  lemma VolumeBound(q: int, h: int, i: int, z: int)
    requires 0 <= i < q && 0 <= z < h
    ensures 0 <= i + z * q < q * h
  {
    MulLe(z, h - 1, q);
    assert (h - 1) * q == q * h - q;
  }

  lemma CellIndexBound(g: Grid, x: int, y: int, z: int)
    requires GridValid(g) && InChunk(g, x, y, z)
    ensures 0 <= Index(g.chunkWidth, g.chunkWidthSquared, x, y, z) < g.chunkWidthSquared * g.chunkHeight
  {
    LayerBound(g.chunkWidth, x, y);
    VolumeBound(g.chunkWidthSquared, g.chunkHeight, x + y * g.chunkWidth, z);
  }

  /**
    Whether cell `(x, y, z)` emits its face in direction `d`: always when the
    neighbour leaves the chunk sideways, otherwise only when the neighbour's
    flat index is inside the grid and holds an id below 1.
  */
  predicate Emits(g: Grid, x: int, y: int, z: int, d: int)
    requires 0 <= d < 6
  {
    var m := BMask[d];
    var n := Index(g.chunkWidth, g.chunkWidthSquared, x, y, z) + m.x + m.y * g.chunkWidth + m.z * g.chunkWidthSquared;
    if 0 <= x + m.x < g.chunkWidth && 0 <= y + m.y < g.chunkWidth then
      0 <= n < |g.voxelAssetIDs| && g.voxelAssetIDs[n] < 1
    else true
  }

  /** How many of the first `k` directions cell `(x, y, z)` emits. */
  function FaceCount(g: Grid, x: int, y: int, z: int, k: int): (n: int)
    requires 0 <= k <= 6
    ensures 0 <= n <= k
  {
    if k == 0 then 0 else FaceCount(g, x, y, z, k - 1) + if Emits(g, x, y, z, k - 1) then 1 else 0
  }

  /** The record of the cell's id after the first `k` directions. */
  function VoxelUpTo(r: MeshRecord, g: Grid, s: Sizes, x: int, y: int, z: int, k: int): MeshRecord
    requires 0 <= k <= 6
  {
    if k == 0 then r
    else
      var prev := VoxelUpTo(r, g, s, x, y, z, k - 1);
      if Emits(g, x, y, z, k - 1) then AddFace(prev, s, x, y, z, k - 1) else prev
  }

  /** The record of the cell's id after the cell: its faces, and `elementID` advanced by four per face. */
  function AddVoxel(r: MeshRecord, g: Grid, s: Sizes, x: int, y: int, z: int): MeshRecord {
    VoxelUpTo(r, g, s, x, y, z, 6).(elementID := r.elementID + 4 * FaceCount(g, x, y, z, 6))
  }

  /** One cell of the scan: a cell holding 0 or an invalid id is skipped. */
  function StepCell(rs: seq<MeshRecord>, g: Grid, s: Sizes, x: int, y: int, z: int): seq<MeshRecord>
    requires GridValid(g) && InChunk(g, x, y, z) && |rs| == |g.assetList|
  {
    CellIndexBound(g, x, y, z);
    var id := g.voxelAssetIDs[Index(g.chunkWidth, g.chunkWidthSquared, x, y, z)];
    if id == 0 || !IsValidVoxelID(g.assetList, id) then rs
    else rs[id := AddVoxel(rs[id], g, s, x, y, z)]
  }

  /** The cells `z < k` of column `(x, y)`. */
  function Column(rs: seq<MeshRecord>, g: Grid, s: Sizes, x: int, y: int, k: int): (r: seq<MeshRecord>)
    requires GridValid(g) && 0 <= x < g.chunkWidth && 0 <= y < g.chunkWidth && 0 <= k <= g.chunkHeight
    requires |rs| == |g.assetList|
    ensures |r| == |rs|
  {
    if k == 0 then rs else StepCell(Column(rs, g, s, x, y, k - 1), g, s, x, y, k - 1)
  }

  /** The columns `y < k` of slice `x`. */
  function Row(rs: seq<MeshRecord>, g: Grid, s: Sizes, x: int, k: int): (r: seq<MeshRecord>)
    requires GridValid(g) && 0 <= x < g.chunkWidth && 0 <= k <= g.chunkWidth
    requires |rs| == |g.assetList|
    ensures |r| == |rs|
  {
    if k == 0 then rs else Column(Row(rs, g, s, x, k - 1), g, s, x, k - 1, g.chunkHeight)
  }

  /** The slices `x < k`. */
  function Slice(rs: seq<MeshRecord>, g: Grid, s: Sizes, k: int): (r: seq<MeshRecord>)
    requires GridValid(g) && 0 <= k <= g.chunkWidth
    requires |rs| == |g.assetList|
    ensures |r| == |rs|
  {
    if k == 0 then rs else Row(Slice(rs, g, s, k - 1), g, s, k - 1, g.chunkWidth)
  }

  function FreshRecords(n: nat): seq<MeshRecord> {
    seq(n, _ => EmptyRecord)
  }

  /** One record per asset-list entry, filled by scanning every cell. */
  function Mesh(g: Grid, s: Sizes): seq<MeshRecord>
    requires GridValid(g)
  {
    Slice(FreshRecords(|g.assetList|), g, s, g.chunkWidth)
  }

  /** The mesh sections: every record past id 0 that has vertices, under its id. */
  function Sections(rs: seq<MeshRecord>): map<int, MeshRecord> {
    map i | 1 <= i < |rs| && |rs[i].vertices| > 0 :: rs[i]
  }

  // ---------------------------------------------------------------------------
  // The records the scan builds

  ghost predicate AllWellFormed(rs: seq<MeshRecord>) {
    forall j :: 0 <= j < |rs| ==> WellFormed(rs[j])
  }

  /** The faces of one voxel add four vertices each and keep the record consistent. */
  lemma {:induction false} VoxelUpToShape(r: MeshRecord, g: Grid, s: Sizes, x: int, y: int, z: int, k: int)
    requires 0 <= k <= 6 && Consistent(r)
    ensures var r' := VoxelUpTo(r, g, s, x, y, z, k);
      Consistent(r') && |r'.vertices| == |r.vertices| + 4 * FaceCount(g, x, y, z, k) && r'.elementID == r.elementID
    decreases k
  {
    if k > 0 {
      VoxelUpToShape(r, g, s, x, y, z, k - 1);
      var prev := VoxelUpTo(r, g, s, x, y, z, k - 1);
      if Emits(g, x, y, z, k - 1) {
        AddFaceShape(prev, s, x, y, z, k - 1);
        AddFaceConsistent(prev, s, x, y, z, k - 1);
      }
    }
  }

  /** After a voxel, `elementID` again counts the record's vertices. */
  lemma AddVoxelWellFormed(r: MeshRecord, g: Grid, s: Sizes, x: int, y: int, z: int)
    requires WellFormed(r)
    ensures WellFormed(AddVoxel(r, g, s, x, y, z))
    ensures |AddVoxel(r, g, s, x, y, z).vertices| == |r.vertices| + 4 * FaceCount(g, x, y, z, 6)
  {
    VoxelUpToShape(r, g, s, x, y, z, 6);
  }

  lemma StepCellWellFormed(rs: seq<MeshRecord>, g: Grid, s: Sizes, x: int, y: int, z: int)
    requires GridValid(g) && InChunk(g, x, y, z) && |rs| == |g.assetList| && AllWellFormed(rs)
    ensures AllWellFormed(StepCell(rs, g, s, x, y, z))
  {
    CellIndexBound(g, x, y, z);
    var id := g.voxelAssetIDs[Index(g.chunkWidth, g.chunkWidthSquared, x, y, z)];
    if id != 0 && IsValidVoxelID(g.assetList, id) {
      AddVoxelWellFormed(rs[id], g, s, x, y, z);
    }
  }

  lemma {:induction false} ColumnWellFormed(rs: seq<MeshRecord>, g: Grid, s: Sizes, x: int, y: int, k: int)
    requires GridValid(g) && 0 <= x < g.chunkWidth && 0 <= y < g.chunkWidth && 0 <= k <= g.chunkHeight
    requires |rs| == |g.assetList| && AllWellFormed(rs)
    ensures AllWellFormed(Column(rs, g, s, x, y, k))
    decreases k
  {
    if k > 0 {
      ColumnWellFormed(rs, g, s, x, y, k - 1);
      StepCellWellFormed(Column(rs, g, s, x, y, k - 1), g, s, x, y, k - 1);
    }
  }

  lemma {:induction false} RowWellFormed(rs: seq<MeshRecord>, g: Grid, s: Sizes, x: int, k: int)
    requires GridValid(g) && 0 <= x < g.chunkWidth && 0 <= k <= g.chunkWidth
    requires |rs| == |g.assetList| && AllWellFormed(rs)
    ensures AllWellFormed(Row(rs, g, s, x, k))
    decreases k
  {
    if k > 0 {
      RowWellFormed(rs, g, s, x, k - 1);
      ColumnWellFormed(Row(rs, g, s, x, k - 1), g, s, x, k - 1, g.chunkHeight);
    }
  }

  lemma {:induction false} SliceWellFormed(rs: seq<MeshRecord>, g: Grid, s: Sizes, k: int)
    requires GridValid(g) && 0 <= k <= g.chunkWidth
    requires |rs| == |g.assetList| && AllWellFormed(rs)
    ensures AllWellFormed(Slice(rs, g, s, k))
    decreases k
  {
    if k > 0 {
      SliceWellFormed(rs, g, s, k - 1);
      RowWellFormed(Slice(rs, g, s, k - 1), g, s, k - 1, g.chunkWidth);
    }
  }

  /**
    Every record of a mesh is consistent and counts its vertices in
    `elementID`: one normal (the face's direction), UV and colour per vertex,
    two triangles per four vertices, every triangle index a vertex, and no
    tangents.
  */
  lemma MeshWellFormed(g: Grid, s: Sizes)
    requires GridValid(g)
    ensures |Mesh(g, s)| == |g.assetList| && AllWellFormed(Mesh(g, s))
  {
    SliceWellFormed(FreshRecords(|g.assetList|), g, s, g.chunkWidth);
  }

  /** Id `j` is a valid id other than 0 that some cell of the chunk holds. */
  ghost predicate HeldBy(g: Grid, j: int) {
    GridValid(g) && j != 0 && IsValidVoxelID(g.assetList, j) && j in g.voxelAssetIDs[..g.chunkWidthSquared * g.chunkHeight]
  }

  /** The records of ids that no cell holds validly are left alone. */
  ghost predicate OnlyHeld(rs: seq<MeshRecord>, rs': seq<MeshRecord>, g: Grid) {
    |rs'| == |rs| && forall j :: 0 <= j < |rs| ==> rs'[j] == rs[j] || HeldBy(g, j)
  }

  lemma StepCellOnlyHeld(rs: seq<MeshRecord>, g: Grid, s: Sizes, x: int, y: int, z: int)
    requires GridValid(g) && InChunk(g, x, y, z) && |rs| == |g.assetList|
    ensures OnlyHeld(rs, StepCell(rs, g, s, x, y, z), g)
  {
    CellIndexBound(g, x, y, z);
    var i := Index(g.chunkWidth, g.chunkWidthSquared, x, y, z);
    var id := g.voxelAssetIDs[i];
    assert g.voxelAssetIDs[..g.chunkWidthSquared * g.chunkHeight][i] == id;
  }

  lemma OnlyHeldTrans(a: seq<MeshRecord>, b: seq<MeshRecord>, c: seq<MeshRecord>, g: Grid)
    requires OnlyHeld(a, b, g) && OnlyHeld(b, c, g)
    ensures OnlyHeld(a, c, g)
  {
  }

  lemma {:induction false} ColumnOnlyHeld(rs: seq<MeshRecord>, g: Grid, s: Sizes, x: int, y: int, k: int)
    requires GridValid(g) && 0 <= x < g.chunkWidth && 0 <= y < g.chunkWidth && 0 <= k <= g.chunkHeight
    requires |rs| == |g.assetList|
    ensures OnlyHeld(rs, Column(rs, g, s, x, y, k), g)
    decreases k
  {
    if k > 0 {
      ColumnOnlyHeld(rs, g, s, x, y, k - 1);
      StepCellOnlyHeld(Column(rs, g, s, x, y, k - 1), g, s, x, y, k - 1);
      OnlyHeldTrans(rs, Column(rs, g, s, x, y, k - 1), Column(rs, g, s, x, y, k), g);
    }
  }

  lemma {:induction false} RowOnlyHeld(rs: seq<MeshRecord>, g: Grid, s: Sizes, x: int, k: int)
    requires GridValid(g) && 0 <= x < g.chunkWidth && 0 <= k <= g.chunkWidth
    requires |rs| == |g.assetList|
    ensures OnlyHeld(rs, Row(rs, g, s, x, k), g)
    decreases k
  {
    if k > 0 {
      RowOnlyHeld(rs, g, s, x, k - 1);
      ColumnOnlyHeld(Row(rs, g, s, x, k - 1), g, s, x, k - 1, g.chunkHeight);
      OnlyHeldTrans(rs, Row(rs, g, s, x, k - 1), Row(rs, g, s, x, k), g);
    }
  }

  lemma {:induction false} SliceOnlyHeld(rs: seq<MeshRecord>, g: Grid, s: Sizes, k: int)
    requires GridValid(g) && 0 <= k <= g.chunkWidth
    requires |rs| == |g.assetList|
    ensures OnlyHeld(rs, Slice(rs, g, s, k), g)
    decreases k
  {
    if k > 0 {
      SliceOnlyHeld(rs, g, s, k - 1);
      RowOnlyHeld(Slice(rs, g, s, k - 1), g, s, k - 1, g.chunkWidth);
      OnlyHeldTrans(rs, Slice(rs, g, s, k - 1), Slice(rs, g, s, k), g);
    }
  }

  /**
    Only ids that a cell of the chunk holds, other than 0 and valid, get
    geometry: the record of id 0, of an invalid id and of an id no cell
    holds stays empty.
  */
  lemma MeshOnlyHeldIds(g: Grid, s: Sizes, j: int)
    requires GridValid(g) && 0 <= j < |g.assetList| && !HeldBy(g, j)
    ensures Mesh(g, s)[j] == EmptyRecord
  {
    SliceOnlyHeld(FreshRecords(|g.assetList|), g, s, g.chunkWidth);
  }

  /**
    The sections of a mesh are exactly its non-empty records past id 0, each
    under a valid id that some cell holds, and each well formed.
  */
  lemma SectionsOfMesh(g: Grid, s: Sizes)
    requires GridValid(g)
    ensures forall i :: i in Sections(Mesh(g, s)) <==> 1 <= i < |g.assetList| && |Mesh(g, s)[i].vertices| > 0
    ensures forall i :: i in Sections(Mesh(g, s)) ==> HeldBy(g, i) && WellFormed(Sections(Mesh(g, s))[i])
  {
    var rs := Mesh(g, s);
    MeshWellFormed(g, s);
    SliceOnlyHeld(FreshRecords(|g.assetList|), g, s, g.chunkWidth);
    forall i | i in Sections(rs) ensures HeldBy(g, i) && WellFormed(Sections(rs)[i]) {
      assert rs[i] != FreshRecords(|g.assetList|)[i];
    }
  }

  // ---------------------------------------------------------------------------
  // The face rule at the chunk's borders

  /** A side face whose neighbour leaves the chunk is always emitted. */
  lemma SideFaces(g: Grid, x: int, y: int, z: int)
    requires GridValid(g) && InChunk(g, x, y, z)
    ensures x == g.chunkWidth - 1 ==> Emits(g, x, y, z, 4)
    ensures x == 0 ==> Emits(g, x, y, z, 5)
    ensures y == g.chunkWidth - 1 ==> Emits(g, x, y, z, 2)
    ensures y == 0 ==> Emits(g, x, y, z, 3)
  {
  }

  /**
    The bottom face of the lowest layer is never emitted, and the top face of
    the highest layer is not when the grid holds exactly the chunk's cells:
    their neighbour's index leaves the grid.
  */
  lemma EndFaces(g: Grid, x: int, y: int, z: int)
    requires GridValid(g) && InChunk(g, x, y, z)
    ensures z == 0 ==> !Emits(g, x, y, z, 1)
    ensures z == g.chunkHeight - 1 && |g.voxelAssetIDs| == g.chunkWidthSquared * g.chunkHeight ==> !Emits(g, x, y, z, 0)
  {
    var q, h := g.chunkWidthSquared, g.chunkHeight;
    var i := x + y * g.chunkWidth;
    LayerBound(g.chunkWidth, x, y);
    if z == h - 1 {
      assert i + z * q + q == i + q * h by {
        assert z * q + q == q * h;
      }
    }
  }

  /** Away from the borders a face is emitted exactly when the neighbouring cell holds an id below 1. */
  lemma InnerFaces(g: Grid, x: int, y: int, z: int, d: int)
    requires GridValid(g) && InChunk(g, x, y, z) && 0 <= d < 6
    requires InChunk(g, x + BMask[d].x, y + BMask[d].y, z + BMask[d].z)
    ensures var n := Index(g.chunkWidth, g.chunkWidthSquared, x + BMask[d].x, y + BMask[d].y, z + BMask[d].z);
      0 <= n < |g.voxelAssetIDs| && (Emits(g, x, y, z, d) <==> g.voxelAssetIDs[n] < 1)
  {
    var m := BMask[d];
    CellIndexBound(g, x + m.x, y + m.y, z + m.z);
    assert Index(g.chunkWidth, g.chunkWidthSquared, x + m.x, y + m.y, z + m.z)
        == Index(g.chunkWidth, g.chunkWidthSquared, x, y, z) + m.x + m.y * g.chunkWidth + m.z * g.chunkWidthSquared;
  }
}
