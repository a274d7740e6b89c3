/**
  The little-endian fields of the save format. The encoder narrows an int to
  `uint8` (keeping its low eight bits) after shifting it right arithmetically;
  the decoder reassembles `lo + (mid << 8) + (hi << 16)`. A 32-bit int is
  written as its four two's-complement bytes, low byte first.
*/
module ByteFields {

  type byte = x: int | 0 <= x < 256

  /** A value read from an archive, with the offset just past it. */
  datatype Read<T> = Read(value: T, next: int)

  const Two8: int := 256
  const Two16: int := 65536
  const Two24: int := 16777216
  const Two31: int := 2147483648
  const Two32: int := 4294967296

  /** Narrowing conversion to `uint8`. */
  function U8(v: int): byte { v % 256 }

  /** `v >> 8` on a signed int: an arithmetic shift, that is, floor division. */
  function Shr8(v: int): int { v / 256 }

  /** Two bytes, as written for counts and voxel indices. */
  function Bytes2(v: int): seq<byte> { [U8(v), U8(Shr8(v))] }

  /** Three bytes, as written for voxel values (`v >> 16` is two shifts by eight). */
  function Bytes3(v: int): seq<byte> { [U8(v), U8(Shr8(v)), U8(Shr8(Shr8(v)))] }

  /** `archive << int32`: the four bytes of the two's-complement representation. */
  function Int32Bytes(v: int): seq<byte> {
    [U8(v), U8(Shr8(v)), U8(Shr8(Shr8(v))), U8(Shr8(Shr8(Shr8(v))))]
  }

  function U16At(b: seq<byte>, p: int): int
    requires 0 <= p && p + 2 <= |b|
  {
    b[p] + b[p + 1] * Two8
  }

  function U24At(b: seq<byte>, p: int): int
    requires 0 <= p && p + 3 <= |b|
  {
    b[p] + b[p + 1] * Two8 + b[p + 2] * Two16
  }

  /** `archive >> int32`: the four bytes read back as a signed 32-bit value. */
  function Int32At(b: seq<byte>, p: int): int
    requires 0 <= p && p + 4 <= |b|
  {
    var u := b[p] + b[p + 1] * Two8 + b[p + 2] * Two16 + b[p + 3] * Two24;
    if u >= Two31 then u - Two32 else u
  }

  /** The value an int takes after conversion to a signed 32-bit int. */
  function Wrap32(v: int): int {
    var u := v % Two32;
    if u >= Two31 then u - Two32 else u
  }

  predicate IsInt32(v: int) { -Two31 <= v < Two31 }

  /** Euclidean division is unique. */
  lemma DivModUnique(v: int, d: int, q: int, r: int)
    requires d > 0 && v == d * q + r && 0 <= r < d
    ensures v / d == q && v % d == r
  {
    var q', r' := v / d, v % d;
    assert v == d * q' + r';
    if q' > q {
      assert d * q' >= d * (q + 1) by { MulMonotone(d, q + 1, q'); }
      assert false;
    } else if q' < q {
      assert d * q >= d * (q' + 1) by { MulMonotone(d, q' + 1, q); }
      assert false;
    }
  }

  lemma MulMonotone(d: int, a: int, b: int)
    requires d > 0 && a <= b
    ensures d * a <= d * b
  {
  }

  /** Peeling one byte off a value: `v == 256 * (v >> 8) + low byte`. */
  lemma Peel(v: int)
    ensures v == Two8 * Shr8(v) + U8(v)
  {
  }

  /** Two bytes hold a value modulo 2^16. */
  lemma Bytes2Value(v: int)
    ensures U8(v) + U8(Shr8(v)) * Two8 == v % Two16
  {
    var q1 := Shr8(v);
    var q2 := Shr8(q1);
    Peel(v); Peel(q1);
    assert v == Two16 * q2 + (U8(q1) * Two8 + U8(v));
    DivModUnique(v, Two16, q2, U8(q1) * Two8 + U8(v));
  }

  /** Three bytes hold a value modulo 2^24. */
  lemma Bytes3Value(v: int)
    ensures U8(v) + U8(Shr8(v)) * Two8 + U8(Shr8(Shr8(v))) * Two16 == v % Two24
  {
    var q1 := Shr8(v);
    var q2 := Shr8(q1);
    var q3 := Shr8(q2);
    Peel(v); Peel(q1); Peel(q2);
    assert v == Two24 * q3 + (U8(q2) * Two16 + U8(q1) * Two8 + U8(v));
    DivModUnique(v, Two24, q3, U8(q2) * Two16 + U8(q1) * Two8 + U8(v));
  }

  /** Four bytes hold a value modulo 2^32. */
  lemma Bytes4Value(v: int)
    ensures U8(v) + U8(Shr8(v)) * Two8 + U8(Shr8(Shr8(v))) * Two16 + U8(Shr8(Shr8(Shr8(v)))) * Two24 == v % Two32
  {
    var q1 := Shr8(v);
    var q2 := Shr8(q1);
    var q3 := Shr8(q2);
    var q4 := Shr8(q3);
    Peel(v); Peel(q1); Peel(q2); Peel(q3);
    var low := U8(q3) * Two24 + U8(q2) * Two16 + U8(q1) * Two8 + U8(v);
    assert v == Two32 * q4 + low;
    DivModUnique(v, Two32, q4, low);
  }

  /** The bytes of field `f` occur in `b` at offset `p`. */
  ghost predicate At(b: seq<byte>, p: int, f: seq<byte>) {
    0 <= p && p + |f| <= |b| && forall i :: 0 <= i < |f| ==> b[p + i] == FieldByte(f, i)
  }

  /**
    Byte `i` of field `f`. `At` speaks of a field's bytes through this function
    only, so that its quantifier is used where a proof names a byte, and not on
    every index into the encoded sequences.
  */
  ghost function FieldByte(f: seq<byte>, i: int): byte
    requires 0 <= i < |f|
  {
    f[i]
  }

  lemma AtConcat(a: seq<byte>, m: seq<byte>, c: seq<byte>)
    ensures At(a + m + c, |a|, m)
  {
  }

  lemma AtSplit(b: seq<byte>, p: int, f: seq<byte>, g: seq<byte>)
    requires At(b, p, f + g)
    ensures At(b, p, f) && At(b, p + |f|, g)
  {
    forall i | 0 <= i < |f| ensures b[p + i] == FieldByte(f, i) {
      assert FieldByte(f + g, i) == f[i];
    }
    forall i | 0 <= i < |g| ensures b[p + |f| + i] == FieldByte(g, i) {
      assert FieldByte(f + g, |f| + i) == g[i];
    }
  }

  /** `AtSplit` with the offset of the second field named by the caller. */
  lemma AtSplitAt(b: seq<byte>, p: int, f: seq<byte>, g: seq<byte>, k: int)
    requires At(b, p, f + g) && k == p + |f|
    ensures At(b, p, f) && At(b, k, g)
  {
    AtSplit(b, p, f, g);
  }

  lemma AtSplit3(b: seq<byte>, p: int, f: seq<byte>, g: seq<byte>, h: seq<byte>)
    requires At(b, p, f + g + h)
    ensures At(b, p, f) && At(b, p + |f|, g) && At(b, p + |f| + |g|, h)
  {
    AtSplit(b, p, f + g, h);
    AtSplit(b, p, f, g);
  }

  /** Reading two bytes back gives the value modulo 2^16. */
  lemma ReadBytes2(b: seq<byte>, p: int, v: int)
    requires At(b, p, Bytes2(v))
    ensures U16At(b, p) == v % Two16
  {
    var f := Bytes2(v);
    assert b[p + 0] == FieldByte(f, 0) && b[p + 1] == FieldByte(f, 1);
    Bytes2Value(v);
  }

  /** Reading three bytes back gives the value modulo 2^24. */
  lemma ReadBytes3(b: seq<byte>, p: int, v: int)
    requires At(b, p, Bytes3(v))
    ensures U24At(b, p) == v % Two24
  {
    var f := Bytes3(v);
    assert b[p + 0] == FieldByte(f, 0) && b[p + 1] == FieldByte(f, 1) && b[p + 2] == FieldByte(f, 2);
    Bytes3Value(v);
  }

  /** Reading a 32-bit int back gives the value wrapped to 32 bits. */
  lemma ReadInt32(b: seq<byte>, p: int, v: int)
    requires At(b, p, Int32Bytes(v))
    ensures Int32At(b, p) == Wrap32(v)
  {
    var f := Int32Bytes(v);
    assert b[p + 0] == FieldByte(f, 0) && b[p + 1] == FieldByte(f, 1) && b[p + 2] == FieldByte(f, 2) && b[p + 3] == FieldByte(f, 3);
    Bytes4Value(v);
  }

  /** A value that fits survives the round trip unchanged. */
  lemma Wrap32Identity(v: int)
    requires IsInt32(v)
    ensures Wrap32(v) == v
  {
    if v < 0 {
      DivModUnique(v, Two32, -1, v + Two32);
    } else {
      DivModUnique(v, Two32, 0, v);
    }
  }

  lemma ModIdentity(v: int, d: int)
    requires 0 <= v < d
    ensures v % d == v
  {
    DivModUnique(v, d, 0, v);
  }

  /** Grouping of appended byte blocks, stated once so that loops need not re-derive it. */
  lemma AppendAssoc(a: seq<byte>, b: seq<byte>, c: seq<byte>)
    ensures (a + b) + c == a + (b + c)
  {
  }
}
