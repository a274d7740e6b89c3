/**
  What `AChunkActor::GenerateChunk()` writes: one noise value per column,
  then, for every cell, the voxel id the height distribution gives, or 0
  when that id is not valid. The loops run x, then y, then z; the states
  between their steps are stated in closed form over the flat index.
*/
module ChunkFill {
  import ByteFields
  import opened ChunkMesh

  /** `AChunkActor::VoxelAssetDistribution_Implementation`: grass on top, two layers of dirt, stone below. */
  function VoxelAssetDistribution(z: int, noise: int): int {
    if z == 30 + noise then 2
    else if 28 + noise <= z && z < 30 + noise then 1
    else if z < 28 + noise then 3
    else 0
  }

  /** How deep a distribution id lies: air, grass, dirt, stone. */
  function Depth(id: int): int {
    match id
    case 2 => 1
    case 1 => 2
    case 3 => 3
    case _ => 0
  }

  /** Going up a column never goes deeper: stone, then dirt, then grass, then air. */
  lemma DistributionLayered(z1: int, z2: int, noise: int)
    requires z1 <= z2
    ensures Depth(VoxelAssetDistribution(z1, noise)) >= Depth(VoxelAssetDistribution(z2, noise))
  {
  }

  /** Raising the noise by `k` raises every layer by `k`. */
  lemma DistributionShift(z: int, noise: int, k: int)
    ensures VoxelAssetDistribution(z + k, noise + k) == VoxelAssetDistribution(z, noise)
  {
  }

  /** The id a generated cell gets: the distribution's, or 0 when that is not valid. */
  function GeneratedID(assetList: seq<bool>, z: int, noise: int): (id: int)
    ensures IsValidVoxelID(assetList, id)
  {
    var d := VoxelAssetDistribution(z, noise);
    if IsValidVoxelID(assetList, d) then d else 0
  }

  // ---------------------------------------------------------------------------
  // Flat indices

  function CellX(w: int, i: int): int
    requires w > 0
  {
    i % w
  }

  function CellY(w: int, i: int): int
    requires w > 0
  {
    (i / w) % w
  }

  function CellZ(w: int, i: int): int
    requires w > 0
  {
    i / (w * w)
  }

  /** The cell of a flat index is the cell it was computed from. */
  lemma Decompose(w: int, x: int, y: int, z: int)
    requires 0 <= x < w && 0 <= y < w && 0 <= z
    ensures var i := Index(w, w * w, x, y, z);
      CellX(w, i) == x && CellY(w, i) == y && CellZ(w, i) == z
  {
    var i := Index(w, w * w, x, y, z);
    assert i == w * (y + w * z) + x;
    ByteFields.DivModUnique(i, w, y + w * z, x);
    ByteFields.DivModUnique(y + w * z, w, z, y);
    LayerBound(w, x, y);
    assert i == (w * w) * z + (x + y * w);
    ByteFields.DivModUnique(i, w * w, z, x + y * w);
  }

  /** Every non-negative flat index is the index of its cell. */
  lemma Recompose(w: int, i: int)
    requires w > 0 && i >= 0
    ensures 0 <= CellX(w, i) < w && 0 <= CellY(w, i) < w && 0 <= CellZ(w, i)
    ensures i == Index(w, w * w, CellX(w, i), CellY(w, i), CellZ(w, i))
  {
    var q := i / w;
    var x, y, z := i % w, q % w, q / w;
    assert i == w * q + x && q == w * z + y;
    assert i == (w * w) * z + (x + y * w);
    LayerBound(w, x, y);
    ByteFields.DivModUnique(i, w * w, z, x + y * w);
  }

  /** The cells of the chunk are the first `w * w * h` indices. */
  lemma CellInChunk(w: int, h: int, i: int)
    requires w > 0 && 0 <= i < w * w * h
    ensures CellZ(w, i) < h
  {
    Recompose(w, i);
    if CellZ(w, i) >= h {
      MulLe(h, CellZ(w, i), w * w);
      assert false;
    }
  }

  // ---------------------------------------------------------------------------
  // The noise loop

  /** Column `j` was visited before `(x, y)` in x-then-y order. */
  predicate ColumnBefore(w: int, j: int, x: int, y: int)
    requires w > 0
  {
    j % w < x || (j % w == x && j / w < y)
  }

  /** The noise array after the columns before `(x, y)`: their noise values, zeros elsewhere. */
  ghost predicate NoiseUpTo(noise: seq<int>, noiseOf: (int, int) -> int, w: int, x: int, y: int) {
    w > 0 && |noise| == w * w
    && forall j :: 0 <= j < w * w ==> noise[j] == if ColumnBefore(w, j, x, y) then noiseOf(j % w, j / w) else 0
  }

  lemma NoiseStart(noiseOf: (int, int) -> int, w: int)
    requires w > 0
    ensures NoiseUpTo(seq(w * w, _ => 0), noiseOf, w, 0, 0)
  {
  }

  lemma NoiseStep(noise: seq<int>, noiseOf: (int, int) -> int, w: int, x: int, y: int)
    requires NoiseUpTo(noise, noiseOf, w, x, y) && 0 <= x < w && 0 <= y < w
    ensures 0 <= x + y * w < w * w
    ensures NoiseUpTo(noise[x + y * w := noiseOf(x, y)], noiseOf, w, x, y + 1)
  {
    LayerBound(w, x, y);
    var c := x + y * w;
    ByteFields.DivModUnique(c, w, y, x);
    var noise' := noise[c := noiseOf(x, y)];
    forall j | 0 <= j < w * w
      ensures noise'[j] == if ColumnBefore(w, j, x, y + 1) then noiseOf(j % w, j / w) else 0
    {
      if j % w == x && j / w == y {
        assert j == w * (j / w) + j % w;
      }
    }
  }

  /** A column index below `w * w` splits into an x and a y below `w`. */
  lemma ColumnSplit(w: int, j: int)
    requires w > 0 && 0 <= j < w * w
    ensures 0 <= j % w < w && 0 <= j / w < w
  {
    if j / w >= w {
      MulLe(w, j / w, w);
    }
  }

  lemma NoiseNextRow(noise: seq<int>, noiseOf: (int, int) -> int, w: int, x: int)
    requires NoiseUpTo(noise, noiseOf, w, x, w)
    ensures NoiseUpTo(noise, noiseOf, w, x + 1, 0)
  {
    forall j | 0 <= j < w * w
      ensures ColumnBefore(w, j, x, w) == ColumnBefore(w, j, x + 1, 0)
    {
      ColumnSplit(w, j);
    }
  }

  /** After every column, the noise of column `(x, y)` is at `x + y * w`. */
  lemma NoiseDone(noise: seq<int>, noiseOf: (int, int) -> int, w: int, x: int, y: int)
    requires NoiseUpTo(noise, noiseOf, w, w, 0) && 0 <= x < w && 0 <= y < w
    ensures 0 <= x + y * w < w * w && noise[x + y * w] == noiseOf(x, y)
  {
    LayerBound(w, x, y);
    ByteFields.DivModUnique(x + y * w, w, y, x);
  }

  // ---------------------------------------------------------------------------
  // The cell loop

  /** Cell `i` was visited before `(x, y, z)` in x, y, z order. */
  predicate CellBefore(w: int, i: int, x: int, y: int, z: int)
    requires w > 0
  {
    CellX(w, i) < x || (CellX(w, i) == x && (CellY(w, i) < y || (CellY(w, i) == y && CellZ(w, i) < z)))
  }

  /** The id generated for cell `i` from the noise array. */
  function CellID(assetList: seq<bool>, noise: seq<int>, w: int, i: int): int
    requires w > 0 && 0 <= i && |noise| == w * w
  {
    Recompose(w, i);
    LayerBound(w, CellX(w, i), CellY(w, i));
    GeneratedID(assetList, CellZ(w, i), noise[CellX(w, i) + CellY(w, i) * w])
  }

  /** The grid after the cells before `(x, y, z)`: their generated ids, the old values elsewhere. */
  ghost predicate FilledUpTo(ids: seq<int>, old0: seq<int>, assetList: seq<bool>, noise: seq<int>, w: int, h: int, x: int, y: int, z: int) {
    w > 0 && |noise| == w * w && |ids| == |old0|
    && forall i :: 0 <= i < |ids| ==> ids[i] == if i < w * w * h && CellBefore(w, i, x, y, z) then CellID(assetList, noise, w, i) else old0[i]
  }

  /** The cells before `(x, y, z)`. */
  ghost function CellsBefore(w: int, h: int, x: int, y: int, z: int): set<int>
    requires w > 0
  {
    set i | 0 <= i < w * w * h && CellBefore(w, i, x, y, z)
  }

  lemma CellBeforeStep(w: int, i: int, x: int, y: int, z: int)
    requires 0 <= x < w && 0 <= y < w && 0 <= z && 0 <= i
    ensures CellBefore(w, i, x, y, z + 1) <==> CellBefore(w, i, x, y, z) || i == Index(w, w * w, x, y, z)
  {
    Decompose(w, x, y, z);
    Recompose(w, i);
  }

  lemma FillStep(ids: seq<int>, old0: seq<int>, assetList: seq<bool>, noise: seq<int>, w: int, h: int, x: int, y: int, z: int)
    requires FilledUpTo(ids, old0, assetList, noise, w, h, x, y, z)
    requires 0 <= x < w && 0 <= y < w && 0 <= z < h && w * w * h <= |ids|
    ensures var c := Index(w, w * w, x, y, z);
      0 <= c < w * w * h && 0 <= x + y * w < w * w
      && FilledUpTo(ids[c := GeneratedID(assetList, z, noise[x + y * w])], old0, assetList, noise, w, h, x, y, z + 1)
      && CellsBefore(w, h, x, y, z + 1) == CellsBefore(w, h, x, y, z) + {c}
  {
    var c := Index(w, w * w, x, y, z);
    LayerBound(w, x, y);
    VolumeBound(w * w, h, x + y * w, z);
    Decompose(w, x, y, z);
    var ids' := ids[c := GeneratedID(assetList, z, noise[x + y * w])];
    forall i | 0 <= i < |ids'|
      ensures ids'[i] == if i < w * w * h && CellBefore(w, i, x, y, z + 1) then CellID(assetList, noise, w, i) else old0[i]
    {
      CellBeforeStep(w, i, x, y, z);
    }
    forall i | 0 <= i
      ensures i in CellsBefore(w, h, x, y, z + 1) <==> i in CellsBefore(w, h, x, y, z) + {c}
    {
      CellBeforeStep(w, i, x, y, z);
    }
  }

  lemma CellBeforeNextColumn(w: int, h: int, i: int, x: int, y: int)
    requires w > 0 && 0 <= i < w * w * h
    ensures CellBefore(w, i, x, y, h) == CellBefore(w, i, x, y + 1, 0)
  {
    CellInChunk(w, h, i);
    Recompose(w, i);
  }

  lemma FillNextColumn(ids: seq<int>, old0: seq<int>, assetList: seq<bool>, noise: seq<int>, w: int, h: int, x: int, y: int)
    requires FilledUpTo(ids, old0, assetList, noise, w, h, x, y, h)
    ensures FilledUpTo(ids, old0, assetList, noise, w, h, x, y + 1, 0)
    ensures CellsBefore(w, h, x, y, h) == CellsBefore(w, h, x, y + 1, 0)
  {
    forall i | 0 <= i < w * w * h
      ensures CellBefore(w, i, x, y, h) == CellBefore(w, i, x, y + 1, 0)
    {
      CellBeforeNextColumn(w, h, i, x, y);
    }
  }

  lemma CellBeforeNextRow(w: int, i: int, x: int)
    requires w > 0 && 0 <= i
    ensures CellBefore(w, i, x, w, 0) == CellBefore(w, i, x + 1, 0, 0)
  {
    Recompose(w, i);
  }

  lemma FillNextRow(ids: seq<int>, old0: seq<int>, assetList: seq<bool>, noise: seq<int>, w: int, h: int, x: int)
    requires FilledUpTo(ids, old0, assetList, noise, w, h, x, w, 0)
    ensures FilledUpTo(ids, old0, assetList, noise, w, h, x + 1, 0, 0)
    ensures CellsBefore(w, h, x, w, 0) == CellsBefore(w, h, x + 1, 0, 0)
  {
    forall i | 0 <= i
      ensures CellBefore(w, i, x, w, 0) == CellBefore(w, i, x + 1, 0, 0)
    {
      CellBeforeNextRow(w, i, x);
    }
  }

  lemma FillDone(ids: seq<int>, old0: seq<int>, assetList: seq<bool>, noise: seq<int>, w: int, h: int)
    requires FilledUpTo(ids, old0, assetList, noise, w, h, w, 0, 0)
    ensures forall i :: 0 <= i < |ids| ==> ids[i] == if i < w * w * h then CellID(assetList, noise, w, i) else old0[i]
    ensures forall i :: i in CellsBefore(w, h, w, 0, 0) <==> 0 <= i < w * w * h
  {
    forall i | 0 <= i
      ensures CellBefore(w, i, w, 0, 0)
    {
      Recompose(w, i);
    }
  }

  /**
    After the noise loop and the cell loop, every cell of the chunk holds
    the id the distribution gives for its height and its column's noise, or
    0 when that id is not valid.
  */
  lemma GeneratedCell(noise: seq<int>, noiseOf: (int, int) -> int, assetList: seq<bool>, w: int, h: int, x: int, y: int, z: int)
    requires NoiseUpTo(noise, noiseOf, w, w, 0) && 0 <= x < w && 0 <= y < w && 0 <= z < h
    ensures var i := Index(w, w * w, x, y, z);
      0 <= i < w * w * h && CellID(assetList, noise, w, i) == GeneratedID(assetList, z, noiseOf(x, y))
  {
    LayerBound(w, x, y);
    VolumeBound(w * w, h, x + y * w, z);
    Decompose(w, x, y, z);
    NoiseDone(noise, noiseOf, w, x, y);
  }

  /** The id generated for cell `i` from the noise hook. */
  function GeneratedAt(assetList: seq<bool>, noiseOf: (int, int) -> int, w: int, i: int): int
    requires w > 0
  {
    GeneratedID(assetList, CellZ(w, i), noiseOf(CellX(w, i), CellY(w, i)))
  }

  /** Reading the noise array after the noise loop is calling the noise hook. */
  lemma GeneratedFromNoise(noise: seq<int>, noiseOf: (int, int) -> int, assetList: seq<bool>, w: int, n: int)
    requires NoiseUpTo(noise, noiseOf, w, w, 0)
    ensures forall i :: 0 <= i < n ==> CellID(assetList, noise, w, i) == GeneratedAt(assetList, noiseOf, w, i)
  {
    forall i | 0 <= i < n
      ensures CellID(assetList, noise, w, i) == GeneratedAt(assetList, noiseOf, w, i)
    {
      Recompose(w, i);
      NoiseDone(noise, noiseOf, w, CellX(w, i), CellY(w, i));
    }
  }
}
