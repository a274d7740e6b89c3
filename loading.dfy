/**
  Loading a saved world (FLoadManager). The world file is read and checked
  first, then every region file it lists; only when all of them read back
  valid are the regions unpacked. Each sub-chunk of a region is restitched:
  a compressed one gets its missing voxels back as its removed voxel, and
  every voxel index moves up by the sub-chunk's slab offset. The sub-chunks
  are then stacked eight at a time into whole chunk columns, which are
  appended to the chunk list the manager was given.
*/
module Loading {
  import opened Wrappers
  import opened VoxelMap
  import opened SaveInfo
  import opened Files
  import opened Paths
  import opened ReadWrite
  import opened Packing
  import ByteFields

  // ---------------------------------------------------------------------------
  // Reading the files

  /**
    Reading, decompressing and decoding a world file: `None` when the file is
    missing or cannot be read or decoded. The sizes are single bytes.
  */
  function ReadWorld(files: FileStore, path: string): (r: Option<WorldInformation>)
    ensures r.Some? ==> 0 <= r.value.chunkWidth < 256
  {
    if path !in files then None
    else match files[path]
      case Corrupt => None
      case Stored(archive) => DecodeWorld(archive)
  }

  /** Reading, decompressing and decoding a region file. */
  function ReadRegion(files: FileStore, path: string): Option<RegionInformation> {
    if path !in files then None
    else match files[path]
      case Corrupt => None
      case Stored(archive) => DecodeRegion(archive)
  }

  /** `ReadRegionFromSave` succeeds: the file reads back as a valid region. */
  predicate RegionLoadable(files: FileStore, path: string) {
    var r := ReadRegion(files, path);
    r.Some? && r.value.bValidInformation
  }

  /** The regions at `positions`, in order, or `None` once one of them is not loadable. */
  function RegionsRead(files: FileStore, pathOf: Vec2i -> string, positions: seq<Vec2i>): Option<seq<RegionInformation>>
    decreases |positions|
  {
    if positions == [] then Some([])
    else
      var front := RegionsRead(files, pathOf, positions[..|positions| - 1]);
      var path := pathOf(positions[|positions| - 1]);
      if front.Some? && RegionLoadable(files, path) then Some(front.value + [ReadRegion(files, path).value])
      else None
  }

  /** Every region file listed at `positions` is loadable. */
  predicate AllLoadable(files: FileStore, pathOf: Vec2i -> string, positions: seq<Vec2i>) {
    forall i :: 0 <= i < |positions| ==> RegionLoadable(files, pathOf(positions[i]))
  }

  /** The regions are read exactly when every listed region file is loadable. */
  lemma {:induction false} RegionsReadSucceeds(files: FileStore, pathOf: Vec2i -> string, positions: seq<Vec2i>)
    ensures RegionsRead(files, pathOf, positions).Some? <==> AllLoadable(files, pathOf, positions)
    decreases |positions|
  {
    if positions != [] {
      var front := positions[..|positions| - 1];
      RegionsReadSucceeds(files, pathOf, front);
      assert forall i :: 0 <= i < |front| ==> front[i] == positions[i];
    }
  }

  /** The i-th region read is the one in the file of the i-th position. */
  lemma {:induction false} RegionsReadValues(files: FileStore, pathOf: Vec2i -> string, positions: seq<Vec2i>)
    requires RegionsRead(files, pathOf, positions).Some?
    ensures var rs := RegionsRead(files, pathOf, positions).value;
      |rs| == |positions|
      && forall i :: 0 <= i < |positions| ==>
           RegionLoadable(files, pathOf(positions[i])) && rs[i] == ReadRegion(files, pathOf(positions[i])).value
    decreases |positions|
  {
    if positions != [] {
      var front := positions[..|positions| - 1];
      RegionsReadValues(files, pathOf, front);
      assert forall i :: 0 <= i < |front| ==> front[i] == positions[i];
    }
  }

  /** Once a region of a prefix fails to load, the whole list fails. */
  lemma RegionsReadPrefix(files: FileStore, pathOf: Vec2i -> string, positions: seq<Vec2i>, n: int)
    requires 0 <= n <= |positions| && RegionsRead(files, pathOf, positions[..n]).None?
    ensures RegionsRead(files, pathOf, positions).None?
  {
    var front := positions[..n];
    RegionsReadSucceeds(files, pathOf, front);
    RegionsReadSucceeds(files, pathOf, positions);
    var i :| 0 <= i < n && !RegionLoadable(files, pathOf(front[i]));
    assert front[i] == positions[i];
  }

  // ---------------------------------------------------------------------------
  // Restitching one sub-chunk

  /** What a compressed sub-chunk fills its missing voxels with; an uncompressed one fills none. */
  function Filler(c: ChunkInformation): Option<int> {
    if c.bCompressed then Some(c.removedVoxel) else None
  }

  /** First half of iteration `i`: a compressed sub-chunk gets a missing voxel `i` back. */
  function FillMissing(e: seq<Entry>, fill: Option<int>, i: int): seq<Entry> {
    if fill.Some? && !Contains(e, i) then Add(e, i, fill.value) else e
  }

  /** Second half of iteration `i`: voxel `i` moves to key `i + offset`, unless the offset is 0. */
  function ShiftVoxel(e: seq<Entry>, i: int, offset: int): seq<Entry>
    requires offset == 0 || Contains(e, i)
  {
    if offset == 0 then e else Remove(Add(e, i + offset, Get(e, i)), i)
  }

  /**
    The loop reads `map[i]` unchecked, which fails on a missing key: a sub-chunk
    above slab 0 that is not compressed must hold every voxel of its slab.
  */
  ghost predicate Restitchable(e: seq<Entry>, fill: Option<int>, off: int, cs: int) {
    off == 0 || fill.Some? || forall k :: 0 <= k < cs ==> Contains(e, k)
  }

  /** One iteration holds the voxel it reads, and keeps every voxel still to come. */
  lemma StepKeeps(e: seq<Entry>, prev: seq<Entry>, fill: Option<int>, off: int, cs: int, i: int)
    requires 0 <= i < cs && Restitchable(e, fill, off, cs)
    requires forall k :: i <= k < cs && Contains(e, k) ==> Contains(prev, k)
    ensures off == 0 || Contains(FillMissing(prev, fill, i), i)
    ensures forall k :: i + 1 <= k < cs && Contains(e, k) ==>
      Contains(ShiftVoxel(FillMissing(prev, fill, i), i, off), k)
  {
    var filled := FillMissing(prev, fill, i);
    if fill.Some? {
      AddKeeps(prev, i, fill.value, i);
    }
    forall k | i + 1 <= k < cs && Contains(e, k)
      ensures Contains(ShiftVoxel(filled, i, off), k)
    {
      if fill.Some? {
        AddKeeps(prev, i, fill.value, k);
      }
      if off != 0 {
        AddKeeps(filled, i + off, Get(filled, i), k);
        RemoveKeeps(Add(filled, i + off, Get(filled, i)), i, k);
      }
    }
  }

  /** The map of a sub-chunk after the first `n` iterations of the restitch loop. */
  function Restitched(e: seq<Entry>, fill: Option<int>, off: int, cs: int, n: int): (r: seq<Entry>)
    requires 0 <= n <= cs && Restitchable(e, fill, off, cs)
    ensures forall k :: n <= k < cs && Contains(e, k) ==> Contains(r, k)
    decreases n
  {
    if n == 0 then e
    else
      var prev := Restitched(e, fill, off, cs, n - 1);
      StepKeeps(e, prev, fill, off, cs, n - 1);
      ShiftVoxel(FillMissing(prev, fill, n - 1), n - 1, off)
  }

  /** Iteration `n` of the restitch loop reads a voxel that is there, and yields the next map. */
  lemma RestitchedNext(e: seq<Entry>, fill: Option<int>, off: int, cs: int, n: int)
    requires 0 <= n < cs && Restitchable(e, fill, off, cs)
    ensures var prev := Restitched(e, fill, off, cs, n);
      (off == 0 || Contains(FillMissing(prev, fill, n), n))
      && Restitched(e, fill, off, cs, n + 1) == ShiftVoxel(FillMissing(prev, fill, n), n, off)
  {
    StepKeeps(e, Restitched(e, fill, off, cs, n), fill, off, cs, n);
  }

  /** The nonzero offset of a slab above or below slab 0 clears the whole slab. */
  lemma OffsetClear(z: int, cs: int)
    requires cs >= 0
    ensures z * cs == 0 || z * cs >= cs || z * cs <= -cs
  {
    if z >= 1 {
      MulMonotone(cs, 1, z);
    } else if z <= -1 {
      MulMonotone(cs, z, -1);
    }
  }

  /**
    The map after `n` iterations, at key `x`: the keys `n .. cs - 1` are still
    in place, and the keys `0 .. n - 1` have moved up by `off`, filled in
    where the sub-chunk is compressed.
  */
  ghost predicate RestitchedAt(r: seq<Entry>, e: seq<Entry>, fill: Option<int>, off: int, cs: int, n: int, x: int) {
    (Contains(r, x) <==> (n <= x < cs && Contains(e, x)) || (off <= x < off + n && (Contains(e, x - off) || fill.Some?)))
    && (n <= x < cs && Contains(e, x) ==> Get(r, x) == Get(e, x))
    && (off <= x < off + n && Contains(e, x - off) ==> Get(r, x) == Get(e, x - off))
    && (off <= x < off + n && !Contains(e, x - off) && fill.Some? ==> Get(r, x) == fill.value)
  }

  /** Filling in voxel `n`, at key `x`. */
  lemma FillAt(prev: seq<Entry>, fill: Option<int>, n: int, x: int)
    requires Distinct(prev)
    ensures var f := FillMissing(prev, fill, n);
      Distinct(f)
      && (Contains(f, x) <==> Contains(prev, x) || (x == n && fill.Some?))
      && (Contains(f, x) ==> Get(f, x) == if Contains(prev, x) then Get(prev, x) else fill.value)
  {
    if fill.Some? && !Contains(prev, n) {
      AddDistinct(prev, n, fill.value);
      AddAt(prev, n, fill.value, x);
    }
  }

  /** Moving voxel `n` to key `n + off`, at key `x`. */
  lemma ShiftAt(f: seq<Entry>, n: int, off: int, x: int)
    requires Distinct(f) && off != 0 && Contains(f, n)
    ensures var s := ShiftVoxel(f, n, off);
      Distinct(s)
      && (Contains(s, x) <==> (Contains(f, x) || x == n + off) && x != n)
      && (Contains(s, x) ==> Get(s, x) == if x == n + off then Get(f, n) else Get(f, x))
  {
    var v := Get(f, n);
    AddDistinct(f, n + off, v);
    AddAt(f, n + off, v, x);
    RemoveAt(Add(f, n + off, v), n, x);
  }

  /** One iteration of the restitch loop, at key `x`. */
  lemma RestitchStepAt(e: seq<Entry>, prev: seq<Entry>, fill: Option<int>, off: int, cs: int, n: int, x: int)
    requires 0 <= n < cs && (off == 0 || off >= cs || off <= -cs)
    requires off == 0 || fill.Some? || Contains(e, n)
    requires Distinct(prev) && RestitchedAt(prev, e, fill, off, cs, n, x) && RestitchedAt(prev, e, fill, off, cs, n, n)
    ensures off == 0 || Contains(FillMissing(prev, fill, n), n)
    ensures Distinct(ShiftVoxel(FillMissing(prev, fill, n), n, off))
    ensures RestitchedAt(ShiftVoxel(FillMissing(prev, fill, n), n, off), e, fill, off, cs, n + 1, x)
  {
    FillAt(prev, fill, n, x);
    FillAt(prev, fill, n, n);
    if off != 0 {
      ShiftAt(FillMissing(prev, fill, n), n, off, x);
    }
  }

  /** The restitch loop after `n` iterations, at key `x`. */
  lemma {:induction false} RestitchedMap(e: seq<Entry>, fill: Option<int>, off: int, cs: int, n: int, x: int)
    requires 0 <= n <= cs && (off == 0 || off >= cs || off <= -cs)
    requires Restitchable(e, fill, off, cs) && Distinct(e)
    requires forall k :: Contains(e, k) ==> 0 <= k < cs
    ensures Distinct(Restitched(e, fill, off, cs, n))
    ensures RestitchedAt(Restitched(e, fill, off, cs, n), e, fill, off, cs, n, x)
    decreases n
  {
    if n > 0 {
      var prev := Restitched(e, fill, off, cs, n - 1);
      RestitchedMap(e, fill, off, cs, n - 1, x);
      RestitchedMap(e, fill, off, cs, n - 1, n - 1);
      RestitchStepAt(e, prev, fill, off, cs, n - 1, x);
    }
  }

  /**
    Restitching a sub-chunk whose keys are its slab's cells `0 .. cs - 1`
    moves every voxel `k` to key `k + z * cs`; a compressed sub-chunk also gets
    every missing voxel back, and no other key appears.
  */
  lemma RestitchedKeys(e: seq<Entry>, fill: Option<int>, z: int, cs: int)
    requires cs >= 0 && Restitchable(e, fill, z * cs, cs) && Distinct(e)
    requires forall k :: Contains(e, k) ==> 0 <= k < cs
    ensures var r, off := Restitched(e, fill, z * cs, cs, cs), z * cs;
      Distinct(r) && forall x :: Contains(r, x) <==> off <= x < off + cs && (Contains(e, x - off) || fill.Some?)
  {
    var off := z * cs;
    var r := Restitched(e, fill, off, cs, cs);
    OffsetClear(z, cs);
    RestitchedMap(e, fill, off, cs, cs, 0);
    forall x ensures Contains(r, x) <==> off <= x < off + cs && (Contains(e, x - off) || fill.Some?) {
      RestitchedMap(e, fill, off, cs, cs, x);
    }
  }

  /**
    At each key `x` of the sub-chunk's new range, a moved voxel keeps its id,
    and a voxel a compressed sub-chunk left out comes back as the removed voxel.
  */
  lemma RestitchedValueAt(e: seq<Entry>, fill: Option<int>, off: int, cs: int, x: int)
    requires cs >= 0 && (off == 0 || off >= cs || off <= -cs) && off <= x < off + cs
    requires Restitchable(e, fill, off, cs) && Distinct(e)
    requires forall k :: Contains(e, k) ==> 0 <= k < cs
    ensures var r := Restitched(e, fill, off, cs, cs);
      (Contains(e, x - off) ==> Contains(r, x) && Get(r, x) == Get(e, x - off))
      && (!Contains(e, x - off) && fill.Some? ==> Contains(r, x) && Get(r, x) == fill.value)
  {
    RestitchedMap(e, fill, off, cs, cs, x);
  }

  // ---------------------------------------------------------------------------
  // Stacking sub-chunks into chunk columns

  /** Every sub-chunk of `subs` can be restitched. */
  ghost predicate AllRestitchable(subs: seq<ChunkInformation>, cs: int) {
    forall i :: 0 <= i < |subs| ==> Restitchable(subs[i].containedVoxel, Filler(subs[i]), subs[i].position.z * cs, cs)
  }

  /** The restitched map of one sub-chunk. */
  function Unpacked(c: ChunkInformation, cs: int): seq<Entry>
    requires cs >= 0 && Restitchable(c.containedVoxel, Filler(c), c.position.z * cs, cs)
  {
    Restitched(c.containedVoxel, Filler(c), c.position.z * cs, cs, cs)
  }

  /** The restitched maps of all of `subs`, in order. */
  function UnpackedAll(subs: seq<ChunkInformation>, cs: int): (maps: seq<seq<Entry>>)
    requires cs >= 0 && AllRestitchable(subs, cs)
    ensures |maps| == |subs| && forall i :: 0 <= i < |subs| ==> maps[i] == Unpacked(subs[i], cs)
  {
    seq(|subs|, i requires 0 <= i < |subs| => Unpacked(subs[i], cs))
  }

  /** The state of the loop over one region's sub-chunks. */
  datatype Stacking = Stacking(split: int, next: ChunkInformation, columns: seq<ChunkInformation>)

  /**
    One sub-chunk, restitched into `voxels`, stacked onto the column being
    built; the eighth completes the column, placed at the last sub-chunk's X and Y.
  */
  function StackStep(s: Stacking, c: ChunkInformation, voxels: seq<Entry>): Stacking {
    var next := s.next.(containedVoxel := Append(s.next.containedVoxel, voxels));
    if s.split == 7 then
      Stacking(0, DefaultChunk, s.columns + [next.(bValidInformation := true, position := Vec3i(c.position.x, c.position.y, 0))])
    else Stacking(s.split + 1, next, s.columns)
  }

  /** The loop state after all of `subs`, whose restitched maps are `maps`. */
  function StackAll(subs: seq<ChunkInformation>, maps: seq<seq<Entry>>): Stacking
    requires |maps| == |subs|
    decreases |subs|
  {
    if subs == [] then Stacking(0, DefaultChunk, [])
    else
      var m := |subs| - 1;
      StackStep(StackAll(subs[..m], maps[..m]), subs[m], maps[m])
  }

  /** The columns one region yields. */
  function RegionColumns(r: RegionInformation, cs: int): seq<ChunkInformation>
    requires cs >= 0 && AllRestitchable(r.containedChunks, cs)
  {
    StackAll(r.containedChunks, UnpackedAll(r.containedChunks, cs)).columns
  }

  /** The columns of a list of regions, region after region. */
  function Columns(regions: seq<RegionInformation>, cs: int): seq<ChunkInformation>
    requires cs >= 0 && forall i :: 0 <= i < |regions| ==> AllRestitchable(regions[i].containedChunks, cs)
    decreases |regions|
  {
    if regions == [] then []
    else Columns(regions[..|regions| - 1], cs) + RegionColumns(regions[|regions| - 1], cs)
  }

  /** The map a column is stacked from: `maps` appended in order. */
  function Pile(maps: seq<seq<Entry>>): seq<Entry>
    decreases |maps|
  {
    if maps == [] then []
    else Append(Pile(maps[..|maps| - 1]), maps[|maps| - 1])
  }

  /** The chunk column built from a group of eight sub-chunks, at the last one's X and Y. */
  function StackedColumn(group: seq<ChunkInformation>, maps: seq<seq<Entry>>): ChunkInformation
    requires |group| == 8 && |maps| == 8
  {
    DefaultChunk.(containedVoxel := Pile(maps), bValidInformation := true,
                  position := Vec3i(group[7].position.x, group[7].position.y, 0))
  }

  /** Counting one more sub-chunk: the place in the group wraps round after the eighth. */
  lemma GroupCount(m: int)
    requires m >= 0
    ensures (m + 1) / 8 == (if m % 8 == 7 then m / 8 + 1 else m / 8)
    ensures (m + 1) % 8 == (if m % 8 == 7 then 0 else m % 8 + 1)
  {
    if m % 8 == 7 {
      ByteFields.DivModUnique(m + 1, 8, m / 8 + 1, 0);
    } else {
      ByteFields.DivModUnique(m + 1, 8, m / 8, m % 8 + 1);
    }
  }

  /**
    The shape of the stacking loop after all of `subs`: one column per
    complete group of eight, and the maps after the last complete group
    piled up in the unfinished column.
  */
  lemma {:induction false} StackedShape(subs: seq<ChunkInformation>, maps: seq<seq<Entry>>)
    requires |maps| == |subs|
    ensures var s, q := StackAll(subs, maps), |subs| / 8;
      s.split == |subs| % 8 && |s.columns| == q
      && s.next == DefaultChunk.(containedVoxel := Pile(maps[8 * q..]))
    decreases |subs|
  {
    if subs != [] {
      var m := |subs| - 1;
      StackedShape(subs[..m], maps[..m]);
      var q := m / 8;
      GroupCount(m);
      assert maps[8 * q..][..|maps[8 * q..]| - 1] == maps[..m][8 * q..];
      if m % 8 == 7 {
        assert maps[8 * (q + 1)..] == [];
      }
    }
  }

  /** A stacking step keeps the columns already built. */
  lemma StepKeepsColumns(s: Stacking, c: ChunkInformation, voxels: seq<Entry>)
    ensures var t := StackStep(s, c, voxels);
      |s.columns| <= |t.columns| && t.columns[..|s.columns|] == s.columns
  {
  }

  /** The eighth sub-chunk of a group completes the column stacked from the whole group. */
  lemma ColumnCompleted(s: Stacking, group: seq<ChunkInformation>, maps: seq<seq<Entry>>)
    requires |group| == 8 && |maps| == 8
    requires s.split == 7 && s.next == DefaultChunk.(containedVoxel := Pile(maps[..7]))
    ensures StackStep(s, group[7], maps[7]).columns == s.columns + [StackedColumn(group, maps)]
  {
    assert maps[..|maps| - 1] == maps[..7];
  }

  /** Stacking one more sub-chunk is one more step. */
  lemma StackAllLast(subs: seq<ChunkInformation>, maps: seq<seq<Entry>>)
    requires |maps| == |subs| > 0
    ensures var m := |subs| - 1;
      StackAll(subs, maps) == StackStep(StackAll(subs[..m], maps[..m]), subs[m], maps[m])
  {
  }

  /** A slice of a prefix is the same slice of the whole. */
  lemma SliceOfPrefix<T>(s: seq<T>, m: int, a: int, b: int)
    requires 0 <= a <= b <= m <= |s|
    ensures s[..m][a..b] == s[a..b]
  {
  }

  /** Column `j` of a region is stacked from its `j`-th group of eight sub-chunks. */
  lemma {:induction false} StackedColumnAt(subs: seq<ChunkInformation>, maps: seq<seq<Entry>>, j: int)
    requires |maps| == |subs| && 0 <= j < |subs| / 8
    ensures |StackAll(subs, maps).columns| == |subs| / 8
    ensures StackAll(subs, maps).columns[j] == StackedColumn(subs[8 * j..8 * j + 8], maps[8 * j..8 * j + 8])
    decreases |subs|
  {
    var m := |subs| - 1;
    GroupCount(m);
    StackedShape(subs, maps);
    StackedShape(subs[..m], maps[..m]);
    var before := StackAll(subs[..m], maps[..m]);
    var after := StackStep(before, subs[m], maps[m]);
    StackAllLast(subs, maps);
    var group, gmaps := subs[8 * j..8 * j + 8], maps[8 * j..8 * j + 8];
    if j < m / 8 {
      StackedColumnAt(subs[..m], maps[..m], j);
      StepKeepsColumns(before, subs[m], maps[m]);
      assert 8 * j + 8 <= 8 * (m / 8) <= m;
      SliceOfPrefix(subs, m, 8 * j, 8 * j + 8);
      SliceOfPrefix(maps, m, 8 * j, 8 * j + 8);
      assert after.columns[j] == after.columns[..|before.columns|][j] == before.columns[j];
    } else {
      assert j == m / 8 && m % 8 == 7 && |before.columns| == j;
      assert m == 8 * (m / 8) + m % 8;
      assert gmaps[..7] == maps[..m][8 * j..];
      ColumnCompleted(before, group, gmaps);
      assert after.columns[j] == StackedColumn(group, gmaps);
    }
  }

  /**
    Stacking a region's sub-chunks yields one column per complete group of
    eight, in order; the sub-chunks of a last, incomplete group are left in
    the unfinished column, which is never added.
  */
  lemma StackedGroups(subs: seq<ChunkInformation>, maps: seq<seq<Entry>>)
    requires |maps| == |subs|
    ensures var columns := StackAll(subs, maps).columns;
      |columns| == |subs| / 8
      && forall j :: 0 <= j < |subs| / 8 ==> columns[j] == StackedColumn(subs[8 * j..8 * j + 8], maps[8 * j..8 * j + 8])
  {
    StackedShape(subs, maps);
    forall j | 0 <= j < |subs| / 8
      ensures StackAll(subs, maps).columns[j] == StackedColumn(subs[8 * j..8 * j + 8], maps[8 * j..8 * j + 8])
    {
      StackedColumnAt(subs, maps, j);
    }
  }

  // ---------------------------------------------------------------------------
  // Saving a chunk and loading it back

  /** `e` holds exactly the keys `lo .. hi - 1`, each with its id in `ids`. */
  ghost predicate HoldsRange(e: seq<Entry>, ids: seq<int>, lo: int, hi: int) {
    Distinct(e)
    && (forall v :: Contains(e, v) <==> lo <= v < hi)
    && forall v :: lo <= v < hi ==> Contains(e, v) && 0 <= v < |ids| && Get(e, v) == ids[v]
  }

  /**
    Slab `s` of a grid split evenly into eight, packed and then restitched,
    holds exactly its own cells `s * cs .. s * cs + cs - 1` with their ids.
  */
  lemma UnpackedSubChunk(ids: seq<int>, cs: int, s: int, x: int, y: int)
    requires cs >= 0 && |ids| == 8 * cs && NonNegative(ids) && 0 <= s < 8
    ensures var c := SubChunk(ids, 8, s, x, y);
      Restitchable(c.containedVoxel, Filler(c), c.position.z * cs, cs)
      && HoldsRange(Unpacked(c, cs), ids, s * cs, s * cs + cs)
  {
    var c := SubChunk(ids, 8, s, x, y);
    var e, fill, off := c.containedVoxel, Filler(c), s * cs;
    SubChunkRestores(ids, 8, s, x, y);
    SlabOfEvenSplit(ids, 8, cs, s);
    assert cs * s == off;
    var slab := Slab(ids, 8, s);
    assert |slab| == cs && forall j :: 0 <= j < cs ==> slab[j] == ids[off + j];
    assert c.position.z == s;
    RestitchedKeys(e, fill, s, cs);
    OffsetClear(s, cs);
    var r := Unpacked(c, cs);
    forall v | off <= v < off + cs
      ensures Contains(r, v) && 0 <= v < |ids| && Get(r, v) == ids[v]
    {
      RestitchedValueAt(e, fill, off, cs, v);
      assert slab[v - off] == ids[v];
    }
  }

  /** A key of the first map not in the second, or a key of the second, keeps its id in the appended map. */
  lemma AppendHoldsAt(front: seq<Entry>, last: seq<Entry>, ids: seq<int>, lo: int, hi: int, v: int)
    requires HoldsRange(front, ids, 0, lo) && HoldsRange(last, ids, lo, hi) && 0 <= lo <= hi && 0 <= v < hi
    ensures var p := Append(front, last); Contains(p, v) && v < |ids| && Get(p, v) == ids[v]
  {
    AppendSpec(front, last);
    if v < lo {
      assert Contains(front, v) && !Contains(last, v);
    } else {
      assert Contains(last, v);
    }
  }

  /** A map holding `0 .. lo - 1` with one holding `lo .. hi - 1` appended holds `0 .. hi - 1`. */
  lemma AppendHolds(front: seq<Entry>, last: seq<Entry>, ids: seq<int>, lo: int, hi: int)
    requires HoldsRange(front, ids, 0, lo) && HoldsRange(last, ids, lo, hi) && 0 <= lo <= hi
    ensures HoldsRange(Append(front, last), ids, 0, hi)
  {
    AppendSpec(front, last);
    var p := Append(front, last);
    forall v ensures Contains(p, v) <==> 0 <= v < hi {
      assert Contains(p, v) <==> Contains(front, v) || Contains(last, v);
    }
    forall v | 0 <= v < hi
      ensures Contains(p, v) && 0 <= v < |ids| && Get(p, v) == ids[v]
    {
      AppendHoldsAt(front, last, ids, lo, hi, v);
    }
  }

  /** Maps holding consecutive ranges of `cs` keys pile up to one map holding all of them. */
  lemma {:induction false} PileHolds(maps: seq<seq<Entry>>, ids: seq<int>, cs: int)
    requires cs >= 0 && forall m :: 0 <= m < |maps| ==> HoldsRange(maps[m], ids, m * cs, m * cs + cs)
    ensures HoldsRange(Pile(maps), ids, 0, |maps| * cs)
    decreases |maps|
  {
    if maps == [] {
      assert |maps| * cs == 0;
      assert forall v :: !Contains([], v);
    } else {
      var m := |maps| - 1;
      var lo := m * cs;
      PileHolds(maps[..m], ids, cs);
      assert |maps| * cs == lo + cs;
      AppendHolds(Pile(maps[..m]), maps[m], ids, lo, lo + cs);
    }
  }

  /**
    A chunk whose height is eight times its width, packed into sub-chunks as
    `SaveManager` does and stacked back as `LoadWorld` does, comes back as one
    valid chunk at `(x, y, 0)` whose map holds every cell of the grid with its
    id, and nothing else.
  */
  lemma ReloadRestoresChunk(ids: seq<int>, w: int, x: int, y: int)
    requires w > 0 && |ids| == w * w * (8 * w) && NonNegative(ids)
    ensures var subs, cs := Gathered(ids, 8, x, y), SubChunkSize(w);
      AllRestitchable(subs, cs)
      && var columns := StackAll(subs, UnpackedAll(subs, cs)).columns;
      |columns| == 1 && columns[0].bValidInformation && columns[0].position == Vec3i(x, y, 0)
      && HoldsRange(columns[0].containedVoxel, ids, 0, |ids|)
  {
    var cs := SubChunkSize(w);
    assert |ids| == 8 * cs;
    var subs := Gathered(ids, 8, x, y);
    forall s | 0 <= s < 8
      ensures Restitchable(subs[s].containedVoxel, Filler(subs[s]), subs[s].position.z * cs, cs)
      ensures HoldsRange(Unpacked(subs[s], cs), ids, s * cs, s * cs + cs)
    {
      UnpackedSubChunk(ids, cs, s, x, y);
    }
    var maps := UnpackedAll(subs, cs);
    StackedGroups(subs, maps);
    assert subs[0..8] == subs && maps[0..8] == maps;
    PileHolds(maps, ids, cs);
  }

  // ---------------------------------------------------------------------------
  // The whole load

  /** The number of voxels in one sub-chunk of a world whose chunks are `w` wide. */
  function SubChunkSize(w: nat): nat { w * w * w }

  /** The source fails an assertion unless every sub-chunk it restitches holds the voxels it reads. */
  ghost predicate NoCrash(files: FileStore, savedDir: string, name: string) {
    var w := ReadWorld(files, GetWorldPath(savedDir, name));
    w.Some? && w.value.bValidInformation ==>
      var rs := RegionsRead(files, RegionFiles(savedDir, name), w.value.containedRegions);
      rs.Some? ==> forall i :: 0 <= i < |rs.value| ==> AllRestitchable(rs.value[i].containedChunks, SubChunkSize(w.value.chunkWidth))
  }

  /** What a load returns, and the world and chunk list it leaves behind. */
  datatype Loaded = Loaded(succeeded: bool, world: WorldInformation, chunks: seq<ChunkInformation>)

  /**
    `LoadWorld`: the world read from the save replaces `world` as soon as it
    decodes, even when it is invalid; the chunk columns are appended to
    `chunks` only when the world and all of its regions are valid.
  */
  function LoadOutcome(files: FileStore, savedDir: string, name: string, world: WorldInformation, chunks: seq<ChunkInformation>): Loaded
    requires NoCrash(files, savedDir, name)
  {
    var w := ReadWorld(files, GetWorldPath(savedDir, name));
    if w.None? then Loaded(false, world, chunks)
    else if !w.value.bValidInformation then Loaded(false, w.value, chunks)
    else
      var rs := RegionsRead(files, RegionFiles(savedDir, name), w.value.containedRegions);
      if rs.None? then Loaded(false, w.value, chunks)
      else Loaded(true, w.value, chunks + Columns(rs.value, SubChunkSize(w.value.chunkWidth)))
  }

  /**
    A load succeeds exactly when the world file reads back valid and so does
    every region file it lists; a failed load adds no chunk, and the world is
    replaced whenever its file decodes.
  */
  lemma LoadOutcomeSucceeds(files: FileStore, savedDir: string, name: string, world: WorldInformation, chunks: seq<ChunkInformation>)
    requires NoCrash(files, savedDir, name)
    ensures var o, w := LoadOutcome(files, savedDir, name, world, chunks), ReadWorld(files, GetWorldPath(savedDir, name));
      (o.succeeded <==>
         w.Some? && w.value.bValidInformation && AllLoadable(files, RegionFiles(savedDir, name), w.value.containedRegions))
      && (!o.succeeded ==> o.chunks == chunks)
      && o.world == (if w.Some? then w.value else world)
  {
    var w := ReadWorld(files, GetWorldPath(savedDir, name));
    if w.Some? {
      RegionsReadSucceeds(files, RegionFiles(savedDir, name), w.value.containedRegions);
    }
  }

  /** `LoadOutcome` case by case, as `LoadWorld` meets the cases. */
  lemma LoadOutcomeCases(files: FileStore, savedDir: string, name: string, world: WorldInformation, chunks: seq<ChunkInformation>)
    requires NoCrash(files, savedDir, name)
    ensures var w, o := ReadWorld(files, GetWorldPath(savedDir, name)), LoadOutcome(files, savedDir, name, world, chunks);
      (w.None? ==> o == Loaded(false, world, chunks))
      && (w.Some? && !w.value.bValidInformation ==> o == Loaded(false, w.value, chunks))
      && (w.Some? && w.value.bValidInformation ==>
            var rs := RegionsRead(files, RegionFiles(savedDir, name), w.value.containedRegions);
            var cs := w.value.chunkWidth * w.value.chunkWidth * w.value.chunkWidth;
            (rs.None? ==> o == Loaded(false, w.value, chunks))
            && (rs.Some? ==>
                  cs == SubChunkSize(w.value.chunkWidth)
                  && (forall i :: 0 <= i < |rs.value| ==> AllRestitchable(rs.value[i].containedChunks, cs))
                  && o == Loaded(true, w.value, chunks + Columns(rs.value, cs))))
  {
  }

  /** The case of `LoadOutcome` in which the world and all its regions were read. */
  lemma LoadRegionsCase(files: FileStore, savedDir: string, name: string, world: WorldInformation, chunks: seq<ChunkInformation>,
                        w: WorldInformation, rs: seq<RegionInformation>)
    requires NoCrash(files, savedDir, name)
    requires ReadWorld(files, GetWorldPath(savedDir, name)) == Some(w) && w.bValidInformation
    requires RegionsRead(files, RegionFiles(savedDir, name), w.containedRegions) == Some(rs)
    ensures var cs := w.chunkWidth * w.chunkWidth * w.chunkWidth;
      cs >= 0
      && (forall i :: 0 <= i < |rs| ==> AllRestitchable(rs[i].containedChunks, cs))
      && LoadOutcome(files, savedDir, name, world, chunks) == Loaded(true, w, chunks + Columns(rs, cs))
  {
    assert w.chunkWidth * w.chunkWidth * w.chunkWidth == SubChunkSize(w.chunkWidth);
  }

  class LoadManager {
    const name: string
    const savedDir: string
    var world: WorldInformation
    var chunks: seq<ChunkInformation>

    constructor(name: string, savedDir: string, world: WorldInformation, chunks: seq<ChunkInformation>)
      ensures this.name == name && this.savedDir == savedDir
      ensures this.world == world && this.chunks == chunks
    {
      this.name := name;
      this.savedDir := savedDir;
      this.world := world;
      this.chunks := chunks;
    }

    /** Reads the world file and the region files, then unpacks every region. */
    method LoadWorld(files: FileStore) returns (succeeded: bool)
      requires NoCrash(files, savedDir, name)
      modifies this
      ensures Loaded(succeeded, world, chunks) == LoadOutcome(files, savedDir, name, old(world), old(chunks))
    {
      var worldPath := GetWorldPath(savedDir, name);
      if worldPath !in files {
        LoadOutcomeCases(files, savedDir, name, world, chunks);
        return false;
      }
      var found := ReadWorldFromSave(files, worldPath);
      if !found {
        LoadOutcomeCases(files, savedDir, name, old(world), old(chunks));
        return false;
      }
      var regionList: seq<RegionInformation>;
      succeeded, regionList := ReadRegions(files, savedDir, name, world.containedRegions);
      if !succeeded {
        LoadOutcomeCases(files, savedDir, name, old(world), old(chunks));
        return;
      }
      var chunkWidth := world.chunkWidth;
      var chunkSize := chunkWidth * chunkWidth * chunkWidth;
      LoadRegionsCase(files, savedDir, name, old(world), old(chunks), world, regionList);
      var loaded := UnpackRegions(regionList, chunkSize);
      chunks := chunks + loaded;
    }

    /** The loop over the world's regions in `LoadWorld`: stops at the first one that does not load. */
    static method ReadRegions(files: FileStore, savedDir: string, name: string, regions: seq<Vec2i>)
      returns (succeeded: bool, regionList: seq<RegionInformation>)
      ensures succeeded == RegionsRead(files, RegionFiles(savedDir, name), regions).Some?
      ensures succeeded ==> regionList == RegionsRead(files, RegionFiles(savedDir, name), regions).value
    {
      regionList := [];
      var i := 0;
      while i < |regions|
        invariant 0 <= i <= |regions|
        invariant RegionsRead(files, RegionFiles(savedDir, name), regions[..i]) == Some(regionList)
      {
        assert regions[..i + 1][..i] == regions[..i];
        var regionPath := GetRegionPath(savedDir, name, regions[i]);
        if regionPath !in files {
          RegionsReadPrefix(files, RegionFiles(savedDir, name), regions, i + 1);
          return false, regionList;
        }
        var valid, region := ReadRegionFromSave(files, regionPath);
        if !valid {
          RegionsReadPrefix(files, RegionFiles(savedDir, name), regions, i + 1);
          return false, regionList;
        }
        regionList := regionList + [region];
        i := i + 1;
      }
      assert regions[..i] == regions;
      return true, regionList;
    }

    /** The loop over the regions read: each region's columns, region after region. */
    static method UnpackRegions(regionList: seq<RegionInformation>, chunkSize: int) returns (loaded: seq<ChunkInformation>)
      requires chunkSize >= 0 && forall i :: 0 <= i < |regionList| ==> AllRestitchable(regionList[i].containedChunks, chunkSize)
      ensures loaded == Columns(regionList, chunkSize)
    {
      loaded := [];
      var j := 0;
      while j < |regionList|
        invariant 0 <= j <= |regionList|
        invariant loaded == Columns(regionList[..j], chunkSize)
      {
        assert regionList[..j + 1][..j] == regionList[..j];
        var columns := UnpackRegion(regionList[j], chunkSize);
        loaded := loaded + columns;
        j := j + 1;
      }
      assert regionList[..j] == regionList;
    }

    /** Reads the world file into `world`, field by field, and reports whether it is valid. */
    method ReadWorldFromSave(files: FileStore, filePath: string) returns (found: bool)
      modifies this`world
      ensures var w := ReadWorld(files, filePath);
        found == (w.Some? && w.value.bValidInformation) && world == (if w.Some? then w.value else old(world))
    {
      if filePath !in files {
        return false;
      }
      match files[filePath]
      case Corrupt =>
        return false;
      case Stored(archive) =>
        var worldInf := ConvertBinaryToWorld(archive);
        if worldInf.None? {
          return false;
        }
        var w := worldInf.value;
        world := world.(bValidInformation := w.bValidInformation, chunkHeight := w.chunkHeight,
          chunkWidth := w.chunkWidth, containedRegions := w.containedRegions, name := w.name,
          numOfRegions := w.numOfRegions, regionWidth := w.regionWidth);
        return world.bValidInformation;
    }

    /** Reads one region file; `valid` is false unless it reads back as a valid region. */
    static method ReadRegionFromSave(files: FileStore, filePath: string) returns (valid: bool, region: RegionInformation)
      ensures valid == RegionLoadable(files, filePath)
      ensures region == if ReadRegion(files, filePath).Some? then ReadRegion(files, filePath).value else DefaultRegion
    {
      region := DefaultRegion;
      if filePath !in files {
        return false, region;
      }
      match files[filePath]
      case Corrupt =>
        return false, region;
      case Stored(archive) =>
        var decoded := ConvertBinaryToRegion(archive);
        if decoded.None? {
          return false, region;
        }
        region := decoded.value;
        return region.bValidInformation, region;
    }

    /** The loop over one region's sub-chunks: restitch each, stack them eight at a time. */
    static method UnpackRegion(region: RegionInformation, chunkSize: int) returns (columns: seq<ChunkInformation>)
      requires chunkSize >= 0 && AllRestitchable(region.containedChunks, chunkSize)
      ensures columns == RegionColumns(region, chunkSize)
    {
      var subs := region.containedChunks;
      ghost var maps := UnpackedAll(subs, chunkSize);
      var verticalSplit := 0;
      var nextChunk := DefaultChunk;
      columns := [];
      var n := 0;
      while n < |subs|
        invariant 0 <= n <= |subs|
        invariant StackAll(subs[..n], maps[..n]) == Stacking(verticalSplit, nextChunk, columns)
      {
        assert subs[..n + 1][..n] == subs[..n] && maps[..n + 1][..n] == maps[..n];
        var chunk := subs[n];
        var voxels := RestitchVoxels(chunk, chunkSize);
        nextChunk := nextChunk.(containedVoxel := Append(nextChunk.containedVoxel, voxels));
        if verticalSplit == 7 {
          verticalSplit := 0;
          nextChunk := nextChunk.(bValidInformation := true, position := Vec3i(chunk.position.x, chunk.position.y, 0));
          columns := columns + [nextChunk];
          nextChunk := DefaultChunk;
        } else {
          verticalSplit := verticalSplit + 1;
        }
        n := n + 1;
      }
      assert subs[..n] == subs && maps[..n] == maps;
    }

    /** The innermost loop: fill in and shift every voxel index of one sub-chunk. */
    static method RestitchVoxels(chunk: ChunkInformation, chunkSize: int) returns (voxels: seq<Entry>)
      requires chunkSize >= 0 && Restitchable(chunk.containedVoxel, Filler(chunk), chunk.position.z * chunkSize, chunkSize)
      ensures voxels == Unpacked(chunk, chunkSize)
    {
      var offset := chunk.position.z * chunkSize;
      voxels := chunk.containedVoxel;
      var i := 0;
      while i < chunkSize
        invariant 0 <= i <= chunkSize
        invariant voxels == Restitched(chunk.containedVoxel, Filler(chunk), offset, chunkSize, i)
      {
        RestitchedNext(chunk.containedVoxel, Filler(chunk), offset, chunkSize, i);
        voxels := RestitchVoxel(voxels, chunk, i, offset);
        i := i + 1;
      }
    }

    /** One iteration of the innermost loop: fill in voxel `i` if it is missing, then move it. */
    static method RestitchVoxel(voxels: seq<Entry>, chunk: ChunkInformation, i: int, offset: int) returns (voxels': seq<Entry>)
      requires offset == 0 || Contains(FillMissing(voxels, Filler(chunk), i), i)
      ensures voxels' == ShiftVoxel(FillMissing(voxels, Filler(chunk), i), i, offset)
    {
      voxels' := voxels;
      if chunk.bCompressed {
        if !Contains(voxels', i) {
          voxels' := Add(voxels', i, chunk.removedVoxel);
        }
      }
      var index := i + offset;
      if i != index {
        voxels' := Add(voxels', index, Get(voxels', i));
        voxels' := Remove(voxels', i);
      }
    }
  }
}
