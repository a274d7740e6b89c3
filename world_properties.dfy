/**
  What the world format guarantees: its size, and that decoding an encoded
  world gives it back with its three sizes narrowed to `uint8`.
*/
module WorldProperties {
  import opened Wrappers
  import opened SaveInfo
  import opened ByteFields
  import opened Names
  import opened ReadWrite

  lemma {:induction false} EncodePositionsLength(ps: seq<Vec2i>)
    ensures |EncodePositions(ps)| == 8 * |ps|
    decreases |ps|
  {
    if ps != [] {
      EncodePositionsLength(ps[..|ps| - 1]);
    }
  }

  /** A valid world is flag, count, 8 bytes per region, the name and 3 size bytes; an invalid one is empty. */
  lemma EncodeWorldLength(w: WorldInformation)
    ensures |EncodeWorld(w)| == if w.bValidInformation then 8 + 8 * |w.containedRegions| + |EncodeName(w.name)| else 0
  {
    EncodePositionsLength(w.containedRegions);
  }

  /** Every coordinate fits a 32-bit int. */
  ghost predicate PositionsFit(ps: seq<Vec2i>) {
    forall i :: 0 <= i < |ps| ==> IsInt32(ps[i].x) && IsInt32(ps[i].y)
  }

  /** A valid world whose count matches its set and whose fields fit their widths. */
  ghost predicate WorldEncodable(w: WorldInformation) {
    w.bValidInformation
    && w.numOfRegions == |w.containedRegions| && IsInt32(w.numOfRegions)
    && NoDuplicates(w.containedRegions) && PositionsFit(w.containedRegions)
    && NameFits(w.name)
  }

  /** Reading one stored coordinate pair more, stated with the terms the induction has at hand. */
  lemma DecodePositionStep(b: seq<byte>, p: int, front: seq<Vec2i>, last: Vec2i)
    requires 0 <= p <= |b|
    requires DecodePositions(b, p, |front|) == Some(Read(front, p + 8 * |front|))
    requires At(b, p + |EncodePositions(front)|, Int32Bytes(last.x))
    requires At(b, p + |EncodePositions(front)| + |Int32Bytes(last.x)|, Int32Bytes(last.y))
    requires IsInt32(last.x) && IsInt32(last.y) && last !in front
    ensures DecodePositions(b, p, |front + [last]|) == Some(Read(front + [last], p + 8 * |front + [last]|))
  {
    EncodePositionsLength(front);
    var q := p + |EncodePositions(front)|;
    var q4 := q + |Int32Bytes(last.x)|;
    DecodePositionsNext(b, p, |front|, |front + [last]|, front, q, q4);
    ReadInt32(b, q, last.x);
    ReadInt32(b, q4, last.y);
    Wrap32Identity(last.x);
    Wrap32Identity(last.y);
  }

  /** Coordinates stored at `p` read back as the same set, in the same order. */
  lemma {:induction false} DecodePositionsOf(b: seq<byte>, p: int, ps: seq<Vec2i>)
    requires 0 <= p <= |b| && At(b, p, EncodePositions(ps))
    requires NoDuplicates(ps) && PositionsFit(ps)
    ensures DecodePositions(b, p, |ps|) == Some(Read(ps, p + 8 * |ps|))
    decreases |ps|
  {
    if ps != [] {
      var front, last := ps[..|ps| - 1], ps[|ps| - 1];
      AtSplit3(b, p, EncodePositions(front), Int32Bytes(last.x), Int32Bytes(last.y));
      PositionsSnoc(ps);
      DecodePositionsOf(b, p, front);
      DecodePositionStep(b, p, front, last);
    }
  }

  /** A set without its last coordinate: still a set, and without that coordinate. */
  lemma PositionsSnoc(ps: seq<Vec2i>)
    requires ps != [] && NoDuplicates(ps) && PositionsFit(ps)
    ensures NoDuplicates(ps[..|ps| - 1]) && PositionsFit(ps[..|ps| - 1])
    ensures IsInt32(ps[|ps| - 1].x) && IsInt32(ps[|ps| - 1].y)
    ensures ps[|ps| - 1] !in ps[..|ps| - 1] && ps[..|ps| - 1] + [ps[|ps| - 1]] == ps
  {
    var front := ps[..|ps| - 1];
    forall i | 0 <= i < |front| ensures front[i] == ps[i] && front[i] != ps[|ps| - 1] {
    }
  }

  /** The decoder, given the fields of a world as they are read back. */
  lemma DecodeWorldFields(b: seq<byte>, name: string, regions: seq<Vec2i>, q: int)
    requires 5 <= |b| && b[0] == 1 && Int32At(b, 1) == |regions|
    requires DecodePositions(b, 5, |regions|) == Some(Read(regions, 5 + 8 * |regions|))
    requires DecodeName(b, 5 + 8 * |regions|) == Some(Read(name, q))
    requires q + 3 <= |b|
    ensures DecodeWorld(b) == Some(WorldInformation(name, regions, |regions|, b[q], b[q + 1], b[q + 2], true))
  {
  }

  /** The fields of a stored world, at the offsets the decoder reads them from. */
  lemma WorldAt(b: seq<byte>, w: WorldInformation)
    requires At(b, 0, EncodeWorld(w)) && w.bValidInformation && IsInt32(w.numOfRegions)
    ensures 5 <= |b| && b[0] == 1 && Int32At(b, 1) == w.numOfRegions
    ensures At(b, 5, EncodePositions(w.containedRegions))
    ensures At(b, 5 + 8 * |w.containedRegions|, EncodeName(w.name))
  {
    var count, positions, name := Int32Bytes(w.numOfRegions), EncodePositions(w.containedRegions), EncodeName(w.name);
    var sizes := [U8(w.regionWidth), U8(w.chunkWidth), U8(w.chunkHeight)];
    var n := |w.containedRegions|;
    EncodePositionsLength(w.containedRegions);
    AtSplitAt(b, 0, [1] + count + positions + name, sizes, 5 + 8 * n + |name|);
    AtSplitAt(b, 0, [1] + count + positions, name, 5 + 8 * n);
    AtSplitAt(b, 0, [1] + count, positions, 5);
    AtSplitAt(b, 0, [1], count, 1);
    assert b[0 + 0] == FieldByte([1], 0);
    ReadInt32(b, 1, w.numOfRegions);
    Wrap32Identity(w.numOfRegions);
  }

  /** The three size bytes of a stored world, after its name. */
  lemma WorldSizesAt(b: seq<byte>, w: WorldInformation, q: int)
    requires At(b, 0, EncodeWorld(w)) && w.bValidInformation
    requires q == 5 + 8 * |w.containedRegions| + |EncodeName(w.name)|
    ensures q + 3 <= |b| && b[q] == U8(w.regionWidth) && b[q + 1] == U8(w.chunkWidth) && b[q + 2] == U8(w.chunkHeight)
  {
    var count, positions, name := Int32Bytes(w.numOfRegions), EncodePositions(w.containedRegions), EncodeName(w.name);
    var sizes := [U8(w.regionWidth), U8(w.chunkWidth), U8(w.chunkHeight)];
    EncodePositionsLength(w.containedRegions);
    AtSplitAt(b, 0, [1] + count + positions + name, sizes, q);
    assert b[q + 0] == FieldByte(sizes, 0) && b[q + 1] == FieldByte(sizes, 1) && b[q + 2] == FieldByte(sizes, 2);
  }

  /** The region set and the name of a stored world read back. */
  lemma WorldPartsRead(b: seq<byte>, name: string, regions: seq<Vec2i>, p: int)
    requires p == 5 + 8 * |regions| && p + |EncodeName(name)| <= |b|
    requires At(b, 5, EncodePositions(regions)) && NoDuplicates(regions) && PositionsFit(regions)
    requires At(b, p, EncodeName(name)) && NameFits(name)
    ensures DecodePositions(b, 5, |regions|) == Some(Read(regions, p))
    ensures DecodeName(b, p) == Some(Read(name, p + |EncodeName(name)|))
  {
    DecodePositionsOf(b, 5, regions);
    DecodeNameOf(b, p, name);
  }

  /** The decoder, given the fields of a world that fits its widths as they are read back. */
  lemma DecodeWorldFromParts(b: seq<byte>, w: WorldInformation, q: int)
    requires WorldEncodable(w)
    requires 5 <= |b| && b[0] == 1 && Int32At(b, 1) == |w.containedRegions|
    requires DecodePositions(b, 5, |w.containedRegions|) == Some(Read(w.containedRegions, 5 + 8 * |w.containedRegions|))
    requires DecodeName(b, 5 + 8 * |w.containedRegions|) == Some(Read(w.name, q))
    requires q + 3 <= |b| && b[q] == U8(w.regionWidth) && b[q + 1] == U8(w.chunkWidth) && b[q + 2] == U8(w.chunkHeight)
    ensures DecodeWorld(b)
         == Some(w.(regionWidth := U8(w.regionWidth), chunkWidth := U8(w.chunkWidth), chunkHeight := U8(w.chunkHeight)))
  {
    DecodeWorldFields(b, w.name, w.containedRegions, q);
  }

  /** A stored world that fits its fields reads back as itself, with the sizes narrowed to `uint8`. */
  lemma DecodeWorldOf(b: seq<byte>, w: WorldInformation)
    requires At(b, 0, EncodeWorld(w)) && WorldEncodable(w)
    ensures DecodeWorld(b)
         == Some(w.(regionWidth := U8(w.regionWidth), chunkWidth := U8(w.chunkWidth), chunkHeight := U8(w.chunkHeight)))
  {
    WorldAt(b, w);
    var q := 5 + 8 * |w.containedRegions| + |EncodeName(w.name)|;
    WorldSizesAt(b, w, q);
    WorldPartsRead(b, w.name, w.containedRegions, 5 + 8 * |w.containedRegions|);
    DecodeWorldFromParts(b, w, q);
  }

  /** A world that fits its fields decodes to itself, with the sizes narrowed to `uint8`. */
  lemma DecodeWorldRoundTrip(w: WorldInformation)
    requires WorldEncodable(w)
    ensures DecodeWorld(EncodeWorld(w))
         == Some(w.(regionWidth := U8(w.regionWidth), chunkWidth := U8(w.chunkWidth), chunkHeight := U8(w.chunkHeight)))
  {
    var b := EncodeWorld(w);
    assert At(b, 0, b);
    DecodeWorldOf(b, w);
  }
}
