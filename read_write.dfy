/**
  The binary layout of region and world saves, and the paths they are saved
  under. The spec functions `EncodeRegion`, `DecodeRegion`, `EncodeWorld` and
  `DecodeWorld` describe the byte streams; the four `Convert` methods append to
  or read from an archive cursor exactly as the source does and are proved
  equal to them. A decoder returns `None` when a read would run past the end
  of the archive.
*/
module ReadWrite {
  import opened Wrappers
  import opened VoxelMap
  import opened SaveInfo
  import opened ByteFields
  import opened Names

  /** A `bool` stored as `uint8`. */
  function Flag(b: bool): byte { if b then 1 else 0 }

  // ---------------------------------------------------------------------------
  // Region encoding

  /** One voxel entry: the 2-byte index only when the chunk is compressed, then the 3-byte value. */
  function EncodeVoxel(v: Entry, compressed: bool): seq<byte> {
    (if compressed then Bytes2(v.key) else []) + Bytes3(v.value)
  }

  /** The entries of a chunk's map, in iteration order. */
  function EncodeVoxels(e: seq<Entry>, compressed: bool): seq<byte>
    decreases |e|
  {
    if e == [] then []
    else EncodeVoxels(e[..|e| - 1], compressed) + EncodeVoxel(e[|e| - 1], compressed)
  }

  /** One chunk record; an invalid chunk is only its zero flag byte. */
  function EncodeChunk(c: ChunkInformation): seq<byte> {
    if !c.bValidInformation then [0]
    else
      [1, U8(c.position.x), U8(c.position.y), U8(c.position.z), Flag(c.bCompressed)]
      + (if c.bCompressed then Bytes3(c.removedVoxel) else [])
      + Bytes2(c.numOfVoxel)
      + EncodeVoxels(c.containedVoxel, c.bCompressed)
  }

  function EncodeChunks(cs: seq<ChunkInformation>): seq<byte>
    decreases |cs|
  {
    if cs == [] then []
    else EncodeChunks(cs[..|cs| - 1]) + EncodeChunk(cs[|cs| - 1])
  }

  /** The 11-byte region header: flag, position X and Y, chunk count. */
  function RegionHeader(r: RegionInformation): seq<byte> {
    [1] + Int32Bytes(r.position.x) + Int32Bytes(r.position.y) + Bytes2(r.numOfChunks)
  }

  /** An invalid region yields an empty archive, without even its flag byte. */
  function EncodeRegion(r: RegionInformation): seq<byte> {
    if !r.bValidInformation then []
    else RegionHeader(r) + EncodeChunks(r.containedChunks)
  }

  // ---------------------------------------------------------------------------
  // Region decoding

  /**
    The first `n` voxel entries of a chunk starting at `start`. An
    uncompressed entry has no index field: its key is its ordinal.
  */
  function DecodeVoxels(b: seq<byte>, start: int, n: nat, compressed: bool): (r: Option<Read<seq<Entry>>>)
    requires 0 <= start <= |b|
    ensures r.Some? ==> start <= r.value.next <= |b|
    decreases n
  {
    if n == 0 then Some(Read([], start))
    else
      match DecodeVoxels(b, start, n - 1, compressed)
      case None => None
      case Some(prev) =>
        var p := prev.next;
        if p + (if compressed then 5 else 3) > |b| then None
        else if compressed then
          Some(Read(Add(prev.value, U16At(b, p), U24At(b, p + 2)), p + 5))
        else
          Some(Read(Add(prev.value, n - 1, U24At(b, p)), p + 3))
  }

  /** One chunk record; an invalid record is one byte and decodes to the default chunk. */
  function DecodeChunk(b: seq<byte>, p: int): (r: Option<Read<ChunkInformation>>)
    requires 0 <= p <= |b|
    ensures r.Some? ==> p < r.value.next <= |b|
  {
    if p + 1 > |b| then None
    else if b[p] == 0 then Some(Read(DefaultChunk, p + 1))
    else if p + 5 > |b| then None
    else
      var compressed := b[p + 4] != 0;
      var q := if compressed then p + 8 else p + 5;
      if q + 2 > |b| then None
      else
        var removed := if compressed then U24At(b, p + 5) else 0;
        var n := U16At(b, q);
        match DecodeVoxels(b, q + 2, n, compressed)
        case None => None
        case Some(v) =>
          Some(Read(ChunkInformation(Vec3i(b[p + 1], b[p + 2], b[p + 3]), v.value, n, compressed, removed, true), v.next))
  }

  /** The first `n` chunk records; invalid ones are consumed and dropped. */
  function DecodeChunks(b: seq<byte>, start: int, n: nat): (r: Option<Read<seq<ChunkInformation>>>)
    requires 0 <= start <= |b|
    ensures r.Some? ==> start <= r.value.next <= |b| && |r.value.value| <= n
    decreases n
  {
    if n == 0 then Some(Read([], start))
    else
      match DecodeChunks(b, start, n - 1)
      case None => None
      case Some(prev) =>
        match DecodeChunk(b, prev.next)
        case None => None
        case Some(c) =>
          Some(Read(if c.value.bValidInformation then prev.value + [c.value] else prev.value, c.next))
  }

  /** A zero flag byte gives the default, invalid region. */
  function DecodeRegion(b: seq<byte>): Option<RegionInformation> {
    if |b| < 1 then None
    else if b[0] == 0 then Some(DefaultRegion)
    else if |b| < 11 then None
    else
      match DecodeChunks(b, 11, U16At(b, 9))
      case None => None
      case Some(d) => Some(RegionInformation(Vec2i(Int32At(b, 1), Int32At(b, 5)), d.value, U16At(b, 9), true))
  }

  /** Once a read runs past the end, so do all later ones. */
  lemma {:induction false} VoxelsFailFrom(b: seq<byte>, start: int, m: nat, n: nat, compressed: bool)
    requires 0 <= start <= |b| && m <= n && DecodeVoxels(b, start, m, compressed).None?
    ensures DecodeVoxels(b, start, n, compressed).None?
    decreases n
  {
    if n > m {
      VoxelsFailFrom(b, start, m, n - 1, compressed);
    }
  }

  /** Reading one voxel entry more: the definition of `DecodeVoxels` at `m + 1`. */
  lemma DecodeVoxelsNext(b: seq<byte>, start: int, m: nat, compressed: bool, prev: seq<Entry>, q: int)
    requires 0 <= start <= |b|
    requires DecodeVoxels(b, start, m, compressed) == Some(Read(prev, q))
    ensures DecodeVoxels(b, start, m + 1, compressed)
         == if q + (if compressed then 5 else 3) > |b| then None
            else if compressed then Some(Read(Add(prev, U16At(b, q), U24At(b, q + 2)), q + 5))
            else Some(Read(Add(prev, m, U24At(b, q)), q + 3))
  {
  }

  lemma {:induction false} ChunksFailFrom(b: seq<byte>, start: int, m: nat, n: nat)
    requires 0 <= start <= |b| && m <= n && DecodeChunks(b, start, m).None?
    ensures DecodeChunks(b, start, n).None?
    decreases n
  {
    if n > m {
      ChunksFailFrom(b, start, m, n - 1);
    }
  }

  // ---------------------------------------------------------------------------
  // World encoding

  /** The region coordinates, in set order, each as two 32-bit ints. */
  function EncodePositions(ps: seq<Vec2i>): seq<byte>
    decreases |ps|
  {
    if ps == [] then []
    else
      var last := ps[|ps| - 1];
      EncodePositions(ps[..|ps| - 1]) + Int32Bytes(last.x) + Int32Bytes(last.y)
  }

  /**
    Flag, region count, region coordinates, name, and the three sizes
    narrowed to `uint8`. An invalid world yields an empty archive.
  */
  function EncodeWorld(w: WorldInformation): seq<byte> {
    if !w.bValidInformation then []
    else
      [1] + Int32Bytes(w.numOfRegions) + EncodePositions(w.containedRegions) + EncodeName(w.name)
      + [U8(w.regionWidth), U8(w.chunkWidth), U8(w.chunkHeight)]
  }

  // ---------------------------------------------------------------------------
  // World decoding

  /** `n` region coordinates, each added to the set as it is read. */
  function DecodePositions(b: seq<byte>, start: int, n: nat): (r: Option<Read<seq<Vec2i>>>)
    requires 0 <= start <= |b|
    ensures r.Some? ==> start <= r.value.next <= |b|
    decreases n
  {
    if n == 0 then Some(Read([], start))
    else
      match DecodePositions(b, start, n - 1)
      case None => None
      case Some(prev) =>
        var p := prev.next;
        if p + 8 > |b| then None
        else Some(Read(SetAdd(prev.value, Vec2i(Int32At(b, p), Int32At(b, p + 4))), p + 8))
  }

  /** A zero flag byte gives the default, invalid world; a negative count reads no coordinates. */
  function DecodeWorld(b: seq<byte>): Option<WorldInformation> {
    if |b| < 1 then None
    else if b[0] == 0 then Some(DefaultWorld)
    else if |b| < 5 then None
    else
      var n := Int32At(b, 1);
      match DecodePositions(b, 5, if n < 0 then 0 else n)
      case None => None
      case Some(regions) =>
        match DecodeName(b, regions.next)
        case None => None
        case Some(name) =>
          var q := name.next;
          if q + 3 > |b| then None
          else Some(WorldInformation(name.value, regions.value, n, b[q], b[q + 1], b[q + 2], true))
  }

  /**
    Reading one coordinate pair more: the definition of `DecodePositions` at
    `n == m + 1`, with the offsets of the two ints named by the caller.
  */
  lemma DecodePositionsNext(b: seq<byte>, start: int, m: nat, n: nat, prev: seq<Vec2i>, q: int, q4: int)
    requires 0 <= start <= |b| && n == m + 1 && q4 == q + 4
    requires DecodePositions(b, start, m) == Some(Read(prev, q))
    ensures DecodePositions(b, start, n)
         == if q + 8 > |b| then None else Some(Read(SetAdd(prev, Vec2i(Int32At(b, q), Int32At(b, q4))), q + 8))
  {
  }

  lemma {:induction false} PositionsFailFrom(b: seq<byte>, start: int, m: nat, n: nat)
    requires 0 <= start <= |b| && m <= n && DecodePositions(b, start, m).None?
    ensures DecodePositions(b, start, n).None?
    decreases n
  {
    if n > m {
      PositionsFailFrom(b, start, m, n - 1);
    }
  }

  // ---------------------------------------------------------------------------
  // The archive methods

  method ConvertRegionToBinary(region: RegionInformation) returns (archive: seq<byte>)
    ensures archive == EncodeRegion(region)
  {
    archive := [Flag(region.bValidInformation)];
    if !region.bValidInformation {
      return [];
    }
    archive := archive + Int32Bytes(region.position.x);
    archive := archive + Int32Bytes(region.position.y);
    archive := archive + [U8(region.numOfChunks), U8(Shr8(region.numOfChunks))];
    assert archive == RegionHeader(region);
    var chunks := region.containedChunks;
    var i := 0;
    while i < |chunks|
      invariant 0 <= i <= |chunks|
      invariant archive == RegionHeader(region) + EncodeChunks(chunks[..i])
    {
      var record := WriteChunk(chunks[i]);
      AppendAssoc(RegionHeader(region), EncodeChunks(chunks[..i]), record);
      archive := archive + record;
      EncodeChunksSnoc(chunks, i);
      i := i + 1;
    }
    assert chunks[..i] == chunks;
  }

  lemma EncodeChunksSnoc(cs: seq<ChunkInformation>, i: int)
    requires 0 <= i < |cs|
    ensures EncodeChunks(cs[..i + 1]) == EncodeChunks(cs[..i]) + EncodeChunk(cs[i])
  {
    assert cs[..i + 1][..i] == cs[..i];
  }

  /** The body of the chunk loop of `ConvertRegionToBinary`. */
  method WriteChunk(chunk: ChunkInformation) returns (record: seq<byte>)
    ensures record == EncodeChunk(chunk)
  {
    record := [Flag(chunk.bValidInformation)];
    if !chunk.bValidInformation {
      return;
    }
    record := record + [U8(chunk.position.x), U8(chunk.position.y), U8(chunk.position.z)];
    record := record + [Flag(chunk.bCompressed)];
    if chunk.bCompressed {
      record := record + [U8(chunk.removedVoxel), U8(Shr8(chunk.removedVoxel)), U8(Shr8(Shr8(chunk.removedVoxel)))];
    }
    record := record + [U8(chunk.numOfVoxel), U8(Shr8(chunk.numOfVoxel))];
    record := WriteVoxels(record, chunk.containedVoxel, chunk.bCompressed);
  }

  /** The voxel loop of `WriteChunk`: appends the entries in iteration order. */
  method WriteVoxels(archive: seq<byte>, voxels: seq<Entry>, compressed: bool) returns (record: seq<byte>)
    ensures record == archive + EncodeVoxels(voxels, compressed)
  {
    record := archive;
    var j := 0;
    while j < |voxels|
      invariant 0 <= j <= |voxels|
      invariant record == archive + EncodeVoxels(voxels[..j], compressed)
    {
      var voxel := voxels[j];
      var bytes := [];
      if compressed {
        bytes := [U8(voxel.key), U8(Shr8(voxel.key))];
      }
      bytes := bytes + [U8(voxel.value), U8(Shr8(voxel.value)), U8(Shr8(Shr8(voxel.value)))];
      assert bytes == EncodeVoxel(voxel, compressed);
      AppendAssoc(archive, EncodeVoxels(voxels[..j], compressed), bytes);
      record := record + bytes;
      assert voxels[..j + 1][..j] == voxels[..j];
      j := j + 1;
    }
    assert voxels[..j] == voxels;
  }

  method ConvertBinaryToRegion(archive: seq<byte>) returns (region: Option<RegionInformation>)
    ensures region == DecodeRegion(archive)
  {
    if |archive| < 1 {
      return None;
    }
    if archive[0] == 0 {
      return Some(DefaultRegion);
    }
    if |archive| < 11 {
      return None;
    }
    var regionX := Int32At(archive, 1);
    var regionY := Int32At(archive, 5);
    var numOfChunks := U16At(archive, 9);
    var chunks: seq<ChunkInformation> := [];
    var pos := 11;
    var i := 0;
    while i < numOfChunks
      invariant 0 <= i <= numOfChunks
      invariant DecodeChunks(archive, 11, i) == Some(Read(chunks, pos))
    {
      var chunk := ReadChunk(archive, pos);
      if chunk.None? {
        ChunksFailFrom(archive, 11, i + 1, numOfChunks);
        return None;
      }
      if chunk.value.value.bValidInformation {
        chunks := chunks + [chunk.value.value];
      }
      pos := chunk.value.next;
      i := i + 1;
    }
    return Some(RegionInformation(Vec2i(regionX, regionY), chunks, numOfChunks, true));
  }

  /** The body of the chunk loop of `ConvertBinaryToRegion`. */
  method ReadChunk(archive: seq<byte>, pos: int) returns (r: Option<Read<ChunkInformation>>)
    requires 0 <= pos <= |archive|
    ensures r == DecodeChunk(archive, pos)
  {
    if pos + 1 > |archive| {
      return None;
    }
    if archive[pos] == 0 {
      return Some(Read(DefaultChunk, pos + 1));
    }
    if pos + 5 > |archive| {
      return None;
    }
    var position := Vec3i(archive[pos + 1], archive[pos + 2], archive[pos + 3]);
    var compressed := archive[pos + 4] != 0;
    var p := pos + 5;
    var removedVoxel := 0;
    if compressed {
      if p + 3 > |archive| {
        return None;
      }
      removedVoxel := U24At(archive, p);
      p := p + 3;
    }
    if p + 2 > |archive| {
      return None;
    }
    var numOfVoxel := U16At(archive, p);
    p := p + 2;
    var voxels := ReadVoxels(archive, p, numOfVoxel, compressed);
    if voxels.None? {
      return None;
    }
    return Some(Read(ChunkInformation(position, voxels.value.value, numOfVoxel, compressed, removedVoxel, true), voxels.value.next));
  }

  /** The voxel loop of `ReadChunk`: an uncompressed entry's key is its ordinal. */
  method ReadVoxels(archive: seq<byte>, start: int, numOfVoxel: nat, compressed: bool) returns (r: Option<Read<seq<Entry>>>)
    requires 0 <= start <= |archive|
    ensures r == DecodeVoxels(archive, start, numOfVoxel, compressed)
  {
    var voxels: seq<Entry> := [];
    var p := start;
    var x := 0;
    while x < numOfVoxel
      invariant 0 <= x <= numOfVoxel
      invariant DecodeVoxels(archive, start, x, compressed) == Some(Read(voxels, p))
    {
      DecodeVoxelsNext(archive, start, x, compressed, voxels, p);
      var key := x;
      if compressed {
        if p + 2 > |archive| {
          VoxelsFailFrom(archive, start, x + 1, numOfVoxel, compressed);
          return None;
        }
        key := U16At(archive, p);
        p := p + 2;
      }
      if p + 3 > |archive| {
        VoxelsFailFrom(archive, start, x + 1, numOfVoxel, compressed);
        return None;
      }
      var value := U24At(archive, p);
      p := p + 3;
      voxels := Add(voxels, key, value);
      x := x + 1;
    }
    return Some(Read(voxels, p));
  }

  method ConvertWorldToBinary(world: WorldInformation) returns (archive: seq<byte>)
    ensures archive == EncodeWorld(world)
  {
    archive := [Flag(world.bValidInformation)];
    if !world.bValidInformation {
      return [];
    }
    archive := archive + Int32Bytes(world.numOfRegions);
    var regions := world.containedRegions;
    var i := 0;
    while i < |regions|
      invariant 0 <= i <= |regions|
      invariant archive == [1] + Int32Bytes(world.numOfRegions) + EncodePositions(regions[..i])
    {
      var region := regions[i];
      archive := archive + Int32Bytes(region.x);
      archive := archive + Int32Bytes(region.y);
      assert regions[..i + 1][..i] == regions[..i];
      i := i + 1;
    }
    assert regions[..i] == regions;
    archive := archive + EncodeName(world.name);
    archive := archive + [U8(world.regionWidth)];
    archive := archive + [U8(world.chunkWidth)];
    archive := archive + [U8(world.chunkHeight)];
  }

  method ConvertBinaryToWorld(archive: seq<byte>) returns (world: Option<WorldInformation>)
    ensures world == DecodeWorld(archive)
  {
    if |archive| < 1 {
      return None;
    }
    if archive[0] == 0 {
      return Some(DefaultWorld);
    }
    if |archive| < 5 {
      return None;
    }
    var numOfRegions := Int32At(archive, 1);
    var count: nat := if numOfRegions < 0 then 0 else numOfRegions;
    var regions: seq<Vec2i> := [];
    var pos := 5;
    var i := 0;
    while i < count
      invariant 0 <= i <= count
      invariant DecodePositions(archive, 5, i) == Some(Read(regions, pos))
    {
      DecodePositionsNext(archive, 5, i, i + 1, regions, pos, pos + 4);
      if pos + 8 > |archive| {
        PositionsFailFrom(archive, 5, i + 1, count);
        return None;
      }
      var regionX := Int32At(archive, pos);
      var regionY := Int32At(archive, pos + 4);
      regions := SetAdd(regions, Vec2i(regionX, regionY));
      pos := pos + 8;
      i := i + 1;
    }
    var name := DecodeName(archive, pos);
    if name.None? {
      return None;
    }
    pos := name.value.next;
    if pos + 3 > |archive| {
      return None;
    }
    var regionWidth, chunkWidth, chunkHeight := archive[pos], archive[pos + 1], archive[pos + 2];
    return Some(WorldInformation(name.value.value, regions, numOfRegions, regionWidth, chunkWidth, chunkHeight, true));
  }
}
