/**
  How the engine's archive stores a string, such as a world's name: a signed
  32-bit count and then the characters with a terminating NUL. A string whose
  characters are all 7-bit is stored one byte per character under a positive
  count; any other string is stored as UTF-16 code units, low byte first,
  under a negated count. The empty string is the count 0 alone. Both counts
  include the terminator.
*/
module Names {
  import opened Wrappers
  import opened ByteFields

  /** Every character is 7-bit, so the one-byte form can store it. */
  predicate IsPureAnsi(s: string) {
    forall i :: 0 <= i < |s| ==> s[i] as int < 128
  }

  /** The UTF-16 code units of one character: a surrogate pair above the basic plane. */
  function CharUnits(c: char): seq<int> {
    var v := c as int;
    if v < 0x10000 then [v]
    else [0xD800 + (v - 0x10000) / 0x400, 0xDC00 + (v - 0x10000) % 0x400]
  }

  function Utf16(s: string): seq<int>
    decreases |s|
  {
    if s == [] then [] else CharUnits(s[0]) + Utf16(s[1..])
  }

  /** The characters of a run of code units; a unit that is half of no pair yields `None`. */
  function FromUtf16(us: seq<int>): Option<string>
    decreases |us|
  {
    if us == [] then Some("")
    else if 0xD800 <= us[0] < 0xDC00 then
      if |us| >= 2 && 0xDC00 <= us[1] < 0xE000 then
        match FromUtf16(us[2..])
        case None => None
        case Some(rest) => Some([(0x10000 + (us[0] - 0xD800) * 0x400 + (us[1] - 0xDC00)) as char] + rest)
      else None
    else if !(0 <= us[0] < 0xD800 || 0xE000 <= us[0] < 0x10000) then None
    else
      match FromUtf16(us[1..])
      case None => None
      case Some(rest) => Some([us[0] as char] + rest)
  }

  function AnsiBytes(s: string): seq<byte>
    decreases |s|
  {
    if s == [] then [] else [U8(s[0] as int)] + AnsiBytes(s[1..])
  }

  function UnitBytes(us: seq<int>): seq<byte>
    decreases |us|
  {
    if us == [] then [] else Bytes2(us[0]) + UnitBytes(us[1..])
  }

  /** `archive << name` on a saving archive. */
  function EncodeName(s: string): seq<byte> {
    if s == [] then Int32Bytes(0)
    else if IsPureAnsi(s) then Int32Bytes(|s| + 1) + AnsiBytes(s) + [0]
    else Int32Bytes(-(|Utf16(s)| + 1)) + UnitBytes(Utf16(s)) + [0, 0]
  }

  /** `k` one-byte characters from `p`. */
  function AnsiFrom(b: seq<byte>, p: int, k: nat): string
    requires 0 <= p && p + k <= |b|
    decreases k
  {
    if k == 0 then [] else [b[p] as char] + AnsiFrom(b, p + 1, k - 1)
  }

  /** `k` code units from `p`. */
  function UnitsFrom(b: seq<byte>, p: int, k: nat): seq<int>
    requires 0 <= p && p + 2 * k <= |b|
    decreases k
  {
    if k == 0 then [] else [U16At(b, p)] + UnitsFrom(b, p + 2, k - 1)
  }

  /**
    `archive << name` on a loading archive. The last character counted is the
    terminator and is not part of the string; a count that runs past the end
    of the archive yields `None`.
  */
  function DecodeName(b: seq<byte>, p: int): (r: Option<Read<string>>)
    requires 0 <= p <= |b|
    ensures r.Some? ==> p + 4 <= r.value.next <= |b|
  {
    if p + 4 > |b| then None
    else
      var n := Int32At(b, p);
      if n == 0 then Some(Read("", p + 4))
      else if n > 0 then
        if p + 4 + n > |b| then None
        else Some(Read(AnsiFrom(b, p + 4, n - 1), p + 4 + n))
      else
        var m := -n;
        if p + 4 + 2 * m > |b| then None
        else
          match FromUtf16(UnitsFrom(b, p + 4, m - 1))
          case None => None
          case Some(s) => Some(Read(s, p + 4 + 2 * m))
  }

  /** The name's count, with its terminator, fits a signed 32-bit int. */
  ghost predicate NameFits(s: string) {
    |Utf16(s)| + 1 < Two31
  }

  // ---------------------------------------------------------------------------
  // The round trip

  lemma {:induction false} Utf16Length(s: string)
    ensures |s| <= |Utf16(s)| <= 2 * |s|
    ensures forall i :: 0 <= i < |Utf16(s)| ==> 0 <= Utf16(s)[i] < Two16
    decreases |s|
  {
    if s != [] {
      Utf16Length(s[1..]);
      var c, rest := CharUnits(s[0]), Utf16(s[1..]);
      assert Utf16(s) == c + rest;
      assert forall i :: 0 <= i < |c| ==> 0 <= c[i] < Two16;
      assert forall i :: |c| <= i < |c| + |rest| ==> (c + rest)[i] == rest[i - |c|];
    }
  }

  /** Decoding the code units of a string gives the string back. */
  lemma {:induction false} Utf16RoundTrip(s: string)
    ensures FromUtf16(Utf16(s)) == Some(s)
    decreases |s|
  {
    if s != [] {
      Utf16RoundTrip(s[1..]);
      var c, rest := CharUnits(s[0]), Utf16(s[1..]);
      var us := c + rest;
      assert Utf16(s) == us;
      var v := s[0] as int;
      if v < 0x10000 {
        assert us[1..] == rest;
      } else {
        assert us[2..] == rest;
        var hi, lo := (v - 0x10000) / 0x400, (v - 0x10000) % 0x400;
        assert 0x10000 + hi * 0x400 + lo == v;
        assert (0x10000 + (us[0] - 0xD800) * 0x400 + (us[1] - 0xDC00)) as char == s[0];
      }
      assert [s[0]] + s[1..] == s;
    }
  }

  lemma {:induction false} AnsiBytesLength(s: string)
    ensures |AnsiBytes(s)| == |s|
    decreases |s|
  {
    if s != [] {
      AnsiBytesLength(s[1..]);
    }
  }

  lemma {:induction false} UnitBytesLength(us: seq<int>)
    ensures |UnitBytes(us)| == 2 * |us|
    decreases |us|
  {
    if us != [] {
      UnitBytesLength(us[1..]);
    }
  }

  /** One-byte characters stored at `p` read back as the string. */
  lemma {:induction false} AnsiFromOf(b: seq<byte>, p: int, s: string)
    requires At(b, p, AnsiBytes(s)) && IsPureAnsi(s)
    ensures |AnsiBytes(s)| == |s| && AnsiFrom(b, p, |s|) == s
    decreases |s|
  {
    AnsiBytesLength(s);
    if s != [] {
      var f, g := [U8(s[0] as int)], AnsiBytes(s[1..]);
      AtSplit(b, p, f, g);
      assert b[p + 0] == FieldByte(f, 0);
      ModIdentity(s[0] as int, 256);
      assert IsPureAnsi(s[1..]) by {
        forall i | 0 <= i < |s[1..]| ensures s[1..][i] as int < 128 {
          assert s[1..][i] == s[i + 1];
        }
      }
      AnsiFromOf(b, p + 1, s[1..]);
      assert [s[0]] + s[1..] == s;
    }
  }

  /** Code units stored at `p` read back as the units. */
  lemma {:induction false} UnitsFromOf(b: seq<byte>, p: int, us: seq<int>)
    requires At(b, p, UnitBytes(us))
    requires forall i :: 0 <= i < |us| ==> 0 <= us[i] < Two16
    ensures |UnitBytes(us)| == 2 * |us| && UnitsFrom(b, p, |us|) == us
    decreases |us|
  {
    UnitBytesLength(us);
    if us != [] {
      var f, g := Bytes2(us[0]), UnitBytes(us[1..]);
      AtSplit(b, p, f, g);
      ReadBytes2(b, p, us[0]);
      ModIdentity(us[0], Two16);
      assert forall i :: 0 <= i < |us[1..]| ==> 0 <= us[1..][i] < Two16 by {
        forall i | 0 <= i < |us[1..]| ensures 0 <= us[1..][i] < Two16 {
          assert us[1..][i] == us[i + 1];
        }
      }
      UnitsFromOf(b, p + 2, us[1..]);
      assert [us[0]] + us[1..] == us;
    }
  }

  /** The decoder on a one-byte name, given its fields. */
  lemma DecodeAnsiFields(b: seq<byte>, p: int, n: int, s: string)
    requires 0 <= p && p + 4 + n <= |b| && n > 0 && Int32At(b, p) == n
    requires AnsiFrom(b, p + 4, n - 1) == s
    ensures DecodeName(b, p) == Some(Read(s, p + 4 + n))
  {
  }

  /** The decoder on a UTF-16 name, given its fields. */
  lemma DecodeUnitsFields(b: seq<byte>, p: int, m: int, s: string)
    requires 0 <= p && p + 4 + 2 * m <= |b| && m > 0 && Int32At(b, p) == -m
    requires FromUtf16(UnitsFrom(b, p + 4, m - 1)) == Some(s)
    ensures DecodeName(b, p) == Some(Read(s, p + 4 + 2 * m))
  {
  }

  /** A stored one-byte name reads back as itself. */
  lemma DecodeAnsiNameOf(b: seq<byte>, p: int, s: string)
    requires At(b, p, EncodeName(s)) && NameFits(s) && s != [] && IsPureAnsi(s)
    ensures DecodeName(b, p) == Some(Read(s, p + |EncodeName(s)|))
  {
    var count, chars := Int32Bytes(|s| + 1), AnsiBytes(s);
    AnsiBytesLength(s);
    Utf16Length(s);
    AtSplitAt(b, p, count + chars, [0], p + 4 + |s|);
    AtSplitAt(b, p, count, chars, p + 4);
    ReadInt32(b, p, |s| + 1);
    Wrap32Identity(|s| + 1);
    AnsiFromOf(b, p + 4, s);
    DecodeAnsiFields(b, p, |s| + 1, s);
  }

  /** The count and code units of a stored UTF-16 name. */
  lemma UnicodeNameAt(b: seq<byte>, p: int, s: string)
    requires At(b, p, EncodeName(s)) && NameFits(s) && s != [] && !IsPureAnsi(s)
    ensures p + 4 + 2 * (|Utf16(s)| + 1) == p + |EncodeName(s)| <= |b|
    ensures Int32At(b, p) == -(|Utf16(s)| + 1) && At(b, p + 4, UnitBytes(Utf16(s)))
  {
    var us := Utf16(s);
    var count, units := Int32Bytes(-(|us| + 1)), UnitBytes(us);
    UnitBytesLength(us);
    AtSplitAt(b, p, count + units, [0, 0], p + 4 + 2 * |us|);
    AtSplitAt(b, p, count, units, p + 4);
    ReadInt32(b, p, -(|us| + 1));
    Wrap32Identity(-(|us| + 1));
  }

  /** A stored UTF-16 name reads back as itself. */
  lemma DecodeUnicodeNameOf(b: seq<byte>, p: int, s: string)
    requires At(b, p, EncodeName(s)) && NameFits(s) && s != [] && !IsPureAnsi(s)
    ensures DecodeName(b, p) == Some(Read(s, p + |EncodeName(s)|))
  {
    UnicodeNameAt(b, p, s);
    Utf16Length(s);
    UnitsFromOf(b, p + 4, Utf16(s));
    Utf16RoundTrip(s);
    DecodeUnitsFields(b, p, |Utf16(s)| + 1, s);
  }

  /** A stored name reads back as itself, and reading stops just after it. */
  lemma DecodeNameOf(b: seq<byte>, p: int, s: string)
    requires At(b, p, EncodeName(s)) && NameFits(s)
    ensures DecodeName(b, p) == Some(Read(s, p + |EncodeName(s)|))
  {
    if s == [] {
      ReadInt32(b, p, 0);
      Wrap32Identity(0);
    } else if IsPureAnsi(s) {
      DecodeAnsiNameOf(b, p, s);
    } else {
      DecodeUnicodeNameOf(b, p, s);
    }
  }
}
