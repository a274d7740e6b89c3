/**
  What the region format guarantees: the size of an encoded region, and that
  decoding an encoded region gives it back, up to the fields the format does
  not carry.

  The round trip is proved in two layers. The byte layer reads the fields of
  an encoded record back out of the archive (`VoxelAt`, `ChunkAt`, ...); the
  decode layer shows that the decoders, given those fields, return the record.
*/
module CodecProperties {
  import opened Wrappers
  import opened VoxelMap
  import opened SaveInfo
  import opened ByteFields
  import opened ReadWrite

  // ---------------------------------------------------------------------------
  // Encoded length

  /** Bytes per voxel entry: index and value when compressed, the value alone otherwise. */
  function VoxelSize(compressed: bool): int { if compressed then 5 else 3 }

  /** Bytes taken by `n` voxel entries. */
  function VoxelsLength(n: int, compressed: bool): int { if compressed then 5 * n else 3 * n }

  /** Flag, position and compressed flag (5), the removed voxel (3, compressed only), the count (2), the entries. */
  function ChunkLength(c: ChunkInformation): int {
    if !c.bValidInformation then 1
    else (if c.bCompressed then 10 else 7) + VoxelsLength(|c.containedVoxel|, c.bCompressed)
  }

  function ChunksLength(cs: seq<ChunkInformation>): int
    decreases |cs|
  {
    if cs == [] then 0 else ChunksLength(cs[..|cs| - 1]) + ChunkLength(cs[|cs| - 1])
  }

  lemma EncodeVoxelLength(v: Entry, compressed: bool)
    ensures |EncodeVoxel(v, compressed)| == VoxelSize(compressed)
  {
  }

  lemma {:induction false} EncodeVoxelsLength(e: seq<Entry>, compressed: bool)
    ensures |EncodeVoxels(e, compressed)| == VoxelsLength(|e|, compressed)
    decreases |e|
  {
    if e != [] {
      EncodeVoxelsLength(e[..|e| - 1], compressed);
      EncodeVoxelLength(e[|e| - 1], compressed);
    }
  }

  lemma EncodeChunkLength(c: ChunkInformation)
    ensures |EncodeChunk(c)| == ChunkLength(c)
  {
    EncodeVoxelsLength(c.containedVoxel, c.bCompressed);
  }

  lemma {:induction false} EncodeChunksLength(cs: seq<ChunkInformation>)
    ensures |EncodeChunks(cs)| == ChunksLength(cs)
    decreases |cs|
  {
    if cs != [] {
      EncodeChunksLength(cs[..|cs| - 1]);
      EncodeChunkLength(cs[|cs| - 1]);
    }
  }

  /** A valid region is its 11-byte header and its chunk records; an invalid one is empty. */
  lemma EncodeRegionLength(r: RegionInformation)
    ensures |EncodeRegion(r)| == if r.bValidInformation then 11 + ChunksLength(r.containedChunks) else 0
  {
    EncodeChunksLength(r.containedChunks);
  }

  // ---------------------------------------------------------------------------
  // What can be encoded, and what comes back

  /** The entries of a chunk fit their fields; an uncompressed chunk's keys are its ordinals. */
  ghost predicate VoxelsEncodable(e: seq<Entry>, compressed: bool) {
    Distinct(e)
    && (forall i :: 0 <= i < |e| ==> 0 <= e[i].value < Two24)
    && (compressed ==> forall i :: 0 <= i < |e| ==> 0 <= e[i].key < Two16)
    && (!compressed ==> forall i :: 0 <= i < |e| ==> e[i].key == i)
  }

  /** Every field of a valid chunk fits the width it is written with. */
  ghost predicate ChunkEncodable(c: ChunkInformation) {
    c.bValidInformation ==>
      0 <= c.position.x < Two8 && 0 <= c.position.y < Two8 && 0 <= c.position.z < Two8
      && c.numOfVoxel == |c.containedVoxel| < Two16
      && (c.bCompressed ==> 0 <= c.removedVoxel < Two24)
      && VoxelsEncodable(c.containedVoxel, c.bCompressed)
  }

  ghost predicate RegionEncodable(r: RegionInformation) {
    r.bValidInformation
    && IsInt32(r.position.x) && IsInt32(r.position.y)
    && r.numOfChunks == |r.containedChunks| < Two16
    && forall i :: 0 <= i < |r.containedChunks| ==> ChunkEncodable(r.containedChunks[i])
  }

  /**
    What a chunk record decodes to: an invalid chunk comes back as the default
    chunk, and `removedVoxel` is only written for a compressed one.
  */
  function Canonical(c: ChunkInformation): ChunkInformation {
    if !c.bValidInformation then DefaultChunk
    else if c.bCompressed then c
    else c.(removedVoxel := 0)
  }

  /** The chunks that come back: invalid ones are dropped, the others canonical. */
  function Kept(cs: seq<ChunkInformation>): seq<ChunkInformation>
    decreases |cs|
  {
    if cs == [] then []
    else
      var last := cs[|cs| - 1];
      Kept(cs[..|cs| - 1]) + (if last.bValidInformation then [Canonical(last)] else [])
  }

  /** One entry fits its fields; an uncompressed entry's key is its ordinal. */
  ghost predicate EntryFits(v: Entry, ordinal: int, compressed: bool) {
    0 <= v.value < Two24 && (if compressed then 0 <= v.key < Two16 else v.key == ordinal)
  }

  /** `VoxelsEncodable`, stated entry by entry from the back. */
  ghost predicate EntriesFit(e: seq<Entry>, compressed: bool)
    decreases |e|
  {
    e == []
    || (EntriesFit(e[..|e| - 1], compressed)
        && EntryFits(e[|e| - 1], |e| - 1, compressed)
        && !Contains(e[..|e| - 1], e[|e| - 1].key))
  }

  lemma {:induction false} EncodableFits(e: seq<Entry>, compressed: bool)
    requires VoxelsEncodable(e, compressed)
    ensures EntriesFit(e, compressed)
    decreases |e|
  {
    if e != [] {
      var front := e[..|e| - 1];
      assert VoxelsEncodable(front, compressed);
      EncodableFits(front, compressed);
      NotContains(front, e[|e| - 1].key);
    }
  }

  /** `ChunkEncodable`, with the entries stated by `EntriesFit`. */
  ghost predicate ChunkFits(c: ChunkInformation) {
    c.bValidInformation ==>
      0 <= c.position.x < Two8 && 0 <= c.position.y < Two8 && 0 <= c.position.z < Two8
      && c.numOfVoxel == |c.containedVoxel| < Two16
      && (c.bCompressed ==> 0 <= c.removedVoxel < Two24)
      && EntriesFit(c.containedVoxel, c.bCompressed)
  }

  /** Every chunk fits its fields, stated chunk by chunk from the back. */
  ghost predicate ChunksFit(cs: seq<ChunkInformation>)
    decreases |cs|
  {
    cs == [] || (ChunksFit(cs[..|cs| - 1]) && ChunkFits(cs[|cs| - 1]))
  }

  lemma {:induction false} EncodableChunksFit(cs: seq<ChunkInformation>)
    requires forall i :: 0 <= i < |cs| ==> ChunkEncodable(cs[i])
    ensures ChunksFit(cs)
    decreases |cs|
  {
    if cs != [] {
      var front := cs[..|cs| - 1];
      assert forall i :: 0 <= i < |front| ==> ChunkEncodable(front[i]) by {
        forall i | 0 <= i < |front| ensures ChunkEncodable(front[i]) {
          assert front[i] == cs[i];
        }
      }
      EncodableChunksFit(front);
      var last := cs[|cs| - 1];
      if last.bValidInformation {
        EncodableFits(last.containedVoxel, last.bCompressed);
      }
    }
  }

  // ---------------------------------------------------------------------------
  // The fields of a record, as the decoders read them

  /** The entry `v` is stored at `q`. */
  ghost predicate VoxelAt(b: seq<byte>, q: int, v: Entry, ordinal: int, compressed: bool) {
    0 <= q && q + VoxelSize(compressed) <= |b|
    && if compressed then U16At(b, q) == v.key && U24At(b, q + 2) == v.value
       else v.key == ordinal && U24At(b, q) == v.value
  }

  /** The entries `e`, whose keys are unique, are stored one after another from `p`. */
  ghost predicate VoxelsAt(b: seq<byte>, p: int, e: seq<Entry>, compressed: bool)
    decreases |e|
  {
    e == []
    || (VoxelsAt(b, p, e[..|e| - 1], compressed)
        && VoxelAt(b, p + VoxelsLength(|e| - 1, compressed), e[|e| - 1], |e| - 1, compressed)
        && !Contains(e[..|e| - 1], e[|e| - 1].key))
  }

  /** The chunk `c` is stored at `p`: its flag, and for a valid chunk its fields and entries. */
  ghost predicate ChunkAt(b: seq<byte>, p: int, c: ChunkInformation) {
    0 <= p < |b|
    && if !c.bValidInformation then b[p] == 0
       else
         var q := if c.bCompressed then p + 8 else p + 5;
         p + 5 <= |b| && b[p] != 0 && (b[p + 4] != 0) == c.bCompressed
         && b[p + 1] == c.position.x && b[p + 2] == c.position.y && b[p + 3] == c.position.z
         && q + 2 <= |b|
         && (c.bCompressed ==> U24At(b, p + 5) == c.removedVoxel)
         && U16At(b, q) == c.numOfVoxel == |c.containedVoxel|
         && VoxelsAt(b, q + 2, c.containedVoxel, c.bCompressed)
  }

  /** The chunks `cs` are stored one after another from `p`. */
  ghost predicate ChunksAt(b: seq<byte>, p: int, cs: seq<ChunkInformation>)
    decreases |cs|
  {
    cs == []
    || (ChunksAt(b, p, cs[..|cs| - 1]) && ChunkAt(b, p + ChunksLength(cs[..|cs| - 1]), cs[|cs| - 1]))
  }

  // ---------------------------------------------------------------------------
  // Byte layer: an encoded record has its fields where the decoder reads them

  /** One entry reads back as written. */
  lemma ReadVoxel(b: seq<byte>, q: int, v: Entry, ordinal: int, compressed: bool)
    requires At(b, q, EncodeVoxel(v, compressed)) && EntryFits(v, ordinal, compressed)
    ensures VoxelAt(b, q, v, ordinal, compressed)
  {
    if compressed {
      AtSplit(b, q, Bytes2(v.key), Bytes3(v.value));
      ReadBytes2(b, q, v.key);
      ReadBytes3(b, q + 2, v.value);
      ModIdentity(v.key, Two16);
    } else {
      assert EncodeVoxel(v, compressed) == Bytes3(v.value);
      ReadBytes3(b, q, v.value);
    }
    ModIdentity(v.value, Two24);
  }

  lemma {:induction false} VoxelsAtOf(b: seq<byte>, p: int, e: seq<Entry>, compressed: bool)
    requires At(b, p, EncodeVoxels(e, compressed)) && EntriesFit(e, compressed)
    ensures VoxelsAt(b, p, e, compressed)
    decreases |e|
  {
    if e != [] {
      var front, last := e[..|e| - 1], e[|e| - 1];
      var f := EncodeVoxels(front, compressed);
      assert EncodeVoxels(e, compressed) == f + EncodeVoxel(last, compressed);
      AtSplit(b, p, f, EncodeVoxel(last, compressed));
      VoxelsAtOf(b, p, front, compressed);
      EncodeVoxelsLength(front, compressed);
      ReadVoxel(b, p + |f|, last, |e| - 1, compressed);
    }
  }

  /** The fixed fields of a valid chunk record read back as written. */
  lemma ChunkHeaderAt(b: seq<byte>, p: int, c: ChunkInformation)
    requires c.bValidInformation && ChunkFits(c)
    requires At(b, p, EncodeChunk(c))
    ensures p + 5 <= |b| && b[p] == 1 && (b[p + 4] != 0) == c.bCompressed
    ensures b[p + 1] == c.position.x && b[p + 2] == c.position.y && b[p + 3] == c.position.z
    ensures c.bCompressed ==> p + 8 <= |b| && U24At(b, p + 5) == c.removedVoxel
    ensures var q := if c.bCompressed then p + 8 else p + 5;
      q + 2 <= |b| && U16At(b, q) == |c.containedVoxel|
      && At(b, q + 2, EncodeVoxels(c.containedVoxel, c.bCompressed))
  {
    var compressed := c.bCompressed;
    var flags := [1, U8(c.position.x), U8(c.position.y), U8(c.position.z), Flag(compressed)];
    var removed := if compressed then Bytes3(c.removedVoxel) else [];
    var head := flags + removed + Bytes2(c.numOfVoxel);
    var ve := EncodeVoxels(c.containedVoxel, compressed);
    assert EncodeChunk(c) == head + ve;
    AtSplit(b, p, head, ve);
    AtSplit(b, p, flags + removed, Bytes2(c.numOfVoxel));
    AtSplit(b, p, flags, removed);
    assert b[p] == flags[0] && b[p + 1] == flags[1] && b[p + 2] == flags[2]
      && b[p + 3] == flags[3] && b[p + 4] == flags[4] by {
      assert b[p + 0] == FieldByte(flags, 0) && b[p + 1] == FieldByte(flags, 1) && b[p + 2] == FieldByte(flags, 2)
        && b[p + 3] == FieldByte(flags, 3) && b[p + 4] == FieldByte(flags, 4);
    }
    ModIdentity(c.position.x, Two8);
    ModIdentity(c.position.y, Two8);
    ModIdentity(c.position.z, Two8);
    if compressed {
      ReadBytes3(b, p + 5, c.removedVoxel);
      ModIdentity(c.removedVoxel, Two24);
    }
    ReadBytes2(b, p + |flags + removed|, c.numOfVoxel);
    ModIdentity(c.numOfVoxel, Two16);
  }

  lemma ChunkAtOf(b: seq<byte>, p: int, c: ChunkInformation)
    requires At(b, p, EncodeChunk(c)) && ChunkFits(c)
    ensures ChunkAt(b, p, c)
  {
    if !c.bValidInformation {
      assert b[p + 0] == FieldByte(EncodeChunk(c), 0);
    } else {
      ChunkHeaderAt(b, p, c);
      var q := if c.bCompressed then p + 8 else p + 5;
      VoxelsAtOf(b, q + 2, c.containedVoxel, c.bCompressed);
    }
  }

  lemma {:induction false} ChunksAtOf(b: seq<byte>, p: int, cs: seq<ChunkInformation>)
    requires At(b, p, EncodeChunks(cs)) && ChunksFit(cs)
    ensures ChunksAt(b, p, cs)
    decreases |cs|
  {
    if cs != [] {
      var f, g := EncodeChunks(cs[..|cs| - 1]), EncodeChunk(cs[|cs| - 1]);
      AtSplit(b, p, f, g);
      EncodeChunksLength(cs[..|cs| - 1]);
      ChunksAtOf(b, p, cs[..|cs| - 1]);
      ChunkAtOf(b, p + ChunksLength(cs[..|cs| - 1]), cs[|cs| - 1]);
    }
  }

  // ---------------------------------------------------------------------------
  // Decode layer: the decoders return the record whose fields they read

  /** One more entry, stored where the decoder reads next and with a fresh key, is decoded onto the end. */
  lemma DecodeVoxelStep(b: seq<byte>, p: int, front: seq<Entry>, last: Entry, m: nat, compressed: bool, q: int)
    requires 0 <= p <= |b| && m == |front|
    requires DecodeVoxels(b, p, m, compressed) == Some(Read(front, q))
    requires VoxelAt(b, q, last, m, compressed) && !Contains(front, last.key)
    ensures DecodeVoxels(b, p, m + 1, compressed) == Some(Read(front + [last], q + VoxelSize(compressed)))
  {
    DecodeVoxelsNext(b, p, m, compressed, front, q);
    AddFresh(front, last.key, last.value);
  }

  lemma {:induction false} DecodeVoxelsOf(b: seq<byte>, p: int, e: seq<Entry>, compressed: bool)
    requires 0 <= p <= |b| && VoxelsAt(b, p, e, compressed)
    ensures DecodeVoxels(b, p, |e|, compressed) == Some(Read(e, p + VoxelsLength(|e|, compressed)))
    decreases |e|
  {
    if e != [] {
      var m := |e| - 1;
      var front := e[..m];
      DecodeVoxelsOf(b, p, front, compressed);
      DecodeVoxelStep(b, p, front, e[m], m, compressed, p + VoxelsLength(m, compressed));
      assert front + [e[m]] == e;
    }
  }

  /** Decoding a valid chunk record whose fields have been read: the definition of `DecodeChunk`. */
  lemma DecodeChunkFields(b: seq<byte>, p: int, compressed: bool, removed: int, n: nat, voxels: seq<Entry>, next: int)
    requires 0 <= p && p + 5 <= |b| && b[p] != 0 && (b[p + 4] != 0) == compressed
    requires (if compressed then p + 8 else p + 5) + 2 <= |b|
    requires compressed ==> U24At(b, p + 5) == removed
    requires !compressed ==> removed == 0
    requires U16At(b, if compressed then p + 8 else p + 5) == n
    requires DecodeVoxels(b, (if compressed then p + 8 else p + 5) + 2, n, compressed) == Some(Read(voxels, next))
    ensures DecodeChunk(b, p)
         == Some(Read(ChunkInformation(Vec3i(b[p + 1], b[p + 2], b[p + 3]), voxels, n, compressed, removed, true), next))
  {
  }

  lemma DecodeChunkOf(b: seq<byte>, p: int, c: ChunkInformation)
    requires ChunkAt(b, p, c)
    ensures DecodeChunk(b, p) == Some(Read(Canonical(c), p + ChunkLength(c)))
  {
    if c.bValidInformation {
      var e := c.containedVoxel;
      var q := if c.bCompressed then p + 8 else p + 5;
      DecodeVoxelsOf(b, q + 2, e, c.bCompressed);
      DecodeChunkFields(b, p, c.bCompressed, Canonical(c).removedVoxel, |e|, e, p + ChunkLength(c));
    }
  }

  /** `Kept` takes one more chunk exactly when its canonical form is valid. */
  lemma KeptSnoc(cs: seq<ChunkInformation>)
    requires cs != []
    ensures var last := Canonical(cs[|cs| - 1]);
      Kept(cs) == if last.bValidInformation then Kept(cs[..|cs| - 1]) + [last] else Kept(cs[..|cs| - 1])
  {
    assert Kept(cs[..|cs| - 1]) + [] == Kept(cs[..|cs| - 1]);
  }

  /** One more chunk record, stored where the decoder reads next, is decoded onto the end. */
  lemma DecodeChunkStep(b: seq<byte>, p: int, front: seq<ChunkInformation>, last: ChunkInformation, n: nat, q: int)
    requires 0 <= p <= |b| && n == |front|
    requires DecodeChunks(b, p, n) == Some(Read(Kept(front), q))
    requires ChunkAt(b, q, last)
    ensures DecodeChunks(b, p, n + 1) == Some(Read(Kept(front + [last]), q + ChunkLength(last)))
  {
    DecodeChunkOf(b, q, last);
    assert (front + [last])[..n] == front;
    KeptSnoc(front + [last]);
  }

  lemma {:induction false} DecodeChunksOf(b: seq<byte>, p: int, cs: seq<ChunkInformation>)
    requires 0 <= p <= |b| && ChunksAt(b, p, cs)
    ensures DecodeChunks(b, p, |cs|) == Some(Read(Kept(cs), p + ChunksLength(cs)))
    decreases |cs|
  {
    if cs != [] {
      var m := |cs| - 1;
      var front := cs[..m];
      DecodeChunksOf(b, p, front);
      DecodeChunkStep(b, p, front, cs[m], m, p + ChunksLength(front));
      assert front + [cs[m]] == cs;
    }
  }

  // ---------------------------------------------------------------------------
  // Regions

  /** The header fields and the chunk records of an encoded region, where the decoder reads them. */
  lemma RegionAt(r: RegionInformation)
    requires RegionEncodable(r)
    ensures var b := EncodeRegion(r);
      11 <= |b| && b[0] == 1
      && Int32At(b, 1) == r.position.x && Int32At(b, 5) == r.position.y
      && U16At(b, 9) == |r.containedChunks|
      && ChunksAt(b, 11, r.containedChunks)
  {
    var b := EncodeRegion(r);
    var h := RegionHeader(r);
    var body := EncodeChunks(r.containedChunks);
    assert b == [] + (h + body) + [];
    AtConcat([], h + body, []);
    AtSplit(b, 0, h, body);
    AtSplit(b, 0, [1] + Int32Bytes(r.position.x) + Int32Bytes(r.position.y), Bytes2(r.numOfChunks));
    AtSplit(b, 0, [1] + Int32Bytes(r.position.x), Int32Bytes(r.position.y));
    AtSplit(b, 0, [1], Int32Bytes(r.position.x));
    assert b[0 + 0] == 1;
    ReadInt32(b, 1, r.position.x);
    ReadInt32(b, 5, r.position.y);
    Wrap32Identity(r.position.x);
    Wrap32Identity(r.position.y);
    ReadBytes2(b, 9, r.numOfChunks);
    ModIdentity(r.numOfChunks, Two16);
    EncodableChunksFit(r.containedChunks);
    ChunksAtOf(b, |h|, r.containedChunks);
  }

  /** A region archive whose header and chunk records are in place decodes to that region. */
  lemma DecodeRegionOf(b: seq<byte>, r: RegionInformation)
    requires r.bValidInformation && r.numOfChunks == |r.containedChunks|
    requires 11 <= |b| && b[0] == 1
    requires Int32At(b, 1) == r.position.x && Int32At(b, 5) == r.position.y
    requires U16At(b, 9) == |r.containedChunks| && ChunksAt(b, 11, r.containedChunks)
    ensures DecodeRegion(b) == Some(r.(containedChunks := Kept(r.containedChunks)))
  {
    DecodeChunksOf(b, 11, r.containedChunks);
  }

  /**
    Decoding an encoded region gives it back, except that invalid chunks are
    dropped and an uncompressed chunk's `removedVoxel` comes back as 0.
  */
  lemma DecodeRegionRoundTrip(r: RegionInformation)
    requires RegionEncodable(r)
    ensures DecodeRegion(EncodeRegion(r)) == Some(r.(containedChunks := Kept(r.containedChunks)))
  {
    RegionAt(r);
    DecodeRegionOf(EncodeRegion(r), r);
  }
}
