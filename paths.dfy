/**
  Where the save files of a world live: the world file and one file per
  region, under the project's save directory, which is a parameter here.
*/
module Paths {
  import opened SaveInfo

  function Digit(d: int): char
    requires 0 <= d < 10
  {
    ('0' as int + d) as char
  }

  /** The decimal digits of `n`, most significant first, without leading zeros. */
  function NatToString(n: nat): string
    decreases n
  {
    if n < 10 then [Digit(n)] else NatToString(n / 10) + [Digit(n % 10)]
  }

  /** `FString::FromInt`: a minus sign before the digits of a negative number. */
  function IntToString(i: int): string {
    if i < 0 then "-" + NatToString(-i) else NatToString(i)
  }

  /** `ReadWriteManager::GetWorldPath`. */
  function GetWorldPath(savedDir: string, name: string): string {
    savedDir + "SaveGames\\" + name + "\\Region\\World.sav"
  }

  /** `ReadWriteManager::GetRegionPath`. */
  function GetRegionPath(savedDir: string, name: string, position: Vec2i): string {
    savedDir + "SaveGames\\" + name + "\\Region\\Reg_(" + IntToString(position.x) + ")-(" + IntToString(position.y) + ").sav"
  }

  /** The file each region of the world `name` is saved to. */
  function RegionFiles(savedDir: string, name: string): Vec2i -> string {
    p => GetRegionPath(savedDir, name, p)
  }

  predicate IsDigit(c: char) {
    '0' <= c <= '9'
  }

  lemma {:induction false} NatToStringDigits(n: nat)
    ensures 1 <= |NatToString(n)|
    ensures forall i :: 0 <= i < |NatToString(n)| ==> IsDigit(NatToString(n)[i])
    decreases n
  {
    if n >= 10 {
      NatToStringDigits(n / 10);
    }
  }

  /** Different numbers have different digits. */
  lemma {:induction false} NatToStringInjective(m: nat, n: nat)
    requires NatToString(m) == NatToString(n)
    ensures m == n
    decreases n
  {
    if m >= 10 && n >= 10 {
      var s := NatToString(n);
      NatToStringDigits(m / 10);
      NatToStringDigits(n / 10);
      assert s[|s| - 1] == Digit(m % 10) == Digit(n % 10);
      assert s[..|s| - 1] == NatToString(m / 10) == NatToString(n / 10);
      NatToStringInjective(m / 10, n / 10);
    } else if m >= 10 {
      NatToStringDigits(m / 10);
    } else if n >= 10 {
      NatToStringDigits(n / 10);
    }
  }

  /** The text of a number is all digits, after a minus sign if it is negative. */
  lemma IntToStringShape(i: int)
    ensures 1 <= |IntToString(i)| && (IntToString(i)[0] == '-' <==> i < 0)
    ensures forall k :: 0 < k < |IntToString(i)| ==> IsDigit(IntToString(i)[k])
    ensures i >= 0 ==> IsDigit(IntToString(i)[0])
  {
    if i < 0 {
      NatToStringDigits(-i);
      assert forall k :: 0 < k < |IntToString(i)| ==> IntToString(i)[k] == NatToString(-i)[k - 1];
    } else {
      NatToStringDigits(i);
    }
  }

  /** `FString::FromInt` is one-to-one. */
  lemma IntToStringInjective(i: int, j: int)
    ensures IntToString(i) == IntToString(j) <==> i == j
  {
    if IntToString(i) == IntToString(j) {
      IntToStringShape(i);
      IntToStringShape(j);
      if i < 0 {
        assert NatToString(-i) == IntToString(i)[1..] == IntToString(j)[1..] == NatToString(-j);
        NatToStringInjective(-i, -j);
      } else {
        NatToStringInjective(i, j);
      }
    }
  }

  /** The position of the first `c` in `s`, or `|s|` if there is none. */
  function IndexOfChar(s: string, c: char): (k: nat)
    ensures k <= |s|
  {
    if s == [] || s[0] == c then 0 else 1 + IndexOfChar(s[1..], c)
  }

  lemma {:induction false} IndexOfCharAfter(a: string, c: char, r: string)
    requires c !in a
    ensures IndexOfChar(a + [c] + r, c) == |a|
    decreases |a|
  {
    if a != [] {
      assert (a + [c] + r)[1..] == a[1..] + [c] + r;
      IndexOfCharAfter(a[1..], c, r);
    }
  }

  /** A text that has no `)` before its first `)` is split there the same way in two equal texts. */
  lemma SplitAtClose(a: string, r: string, a': string, r': string)
    requires a + ")" + r == a' + ")" + r' && ')' !in a && ')' !in a'
    ensures a == a' && r == r'
  {
    var s := a + ")" + r;
    IndexOfCharAfter(a, ')', r);
    IndexOfCharAfter(a', ')', r');
    assert a == s[..|a|] == a';
    assert r == s[|a| + 1..] == r';
  }

  lemma NoClose(i: int)
    ensures ')' !in IntToString(i)
  {
    IntToStringShape(i);
  }

  /** What follows the region file's prefix: the two coordinates, each closed by `)`. */
  function RegionTail(position: Vec2i): string {
    IntToString(position.x) + ")" + ("-(" + IntToString(position.y) + ").sav")
  }

  lemma RegionPathTail(savedDir: string, name: string, position: Vec2i)
    ensures GetRegionPath(savedDir, name, position) == savedDir + "SaveGames\\" + name + "\\Region\\Reg_(" + RegionTail(position)
  {
  }

  lemma RegionTailInjective(p: Vec2i, q: Vec2i)
    requires RegionTail(p) == RegionTail(q)
    ensures p == q
  {
    var py, qy := IntToString(p.y), IntToString(q.y);
    NoClose(p.x);
    NoClose(q.x);
    NoClose(p.y);
    NoClose(q.y);
    SplitAtClose(IntToString(p.x), "-(" + py + ").sav", IntToString(q.x), "-(" + qy + ").sav");
    assert py + ")" + ".sav" == ("-(" + py + ").sav")[2..];
    assert qy + ")" + ".sav" == ("-(" + qy + ").sav")[2..];
    SplitAtClose(py, ".sav", qy, ".sav");
    IntToStringInjective(p.x, q.x);
    IntToStringInjective(p.y, q.y);
  }

  /** Two regions of one world are saved to the same file only if they are at the same position. */
  lemma RegionPathInjective(savedDir: string, name: string, p: Vec2i, q: Vec2i)
    ensures GetRegionPath(savedDir, name, p) == GetRegionPath(savedDir, name, q) <==> p == q
  {
    if GetRegionPath(savedDir, name, p) == GetRegionPath(savedDir, name, q) {
      var pre := savedDir + "SaveGames\\" + name + "\\Region\\Reg_(";
      RegionPathTail(savedDir, name, p);
      RegionPathTail(savedDir, name, q);
      assert RegionTail(p) == (pre + RegionTail(p))[|pre|..];
      assert RegionTail(q) == (pre + RegionTail(q))[|pre|..];
      RegionTailInjective(p, q);
    }
  }

  /** The world file of a world is none of its region files. */
  lemma WorldPathIsNoRegionPath(savedDir: string, name: string, p: Vec2i)
    ensures GetWorldPath(savedDir, name) != GetRegionPath(savedDir, name, p)
  {
    var pre := savedDir + "SaveGames\\" + name + "\\Region\\";
    assert GetWorldPath(savedDir, name) == pre + "World.sav";
    assert GetRegionPath(savedDir, name, p) == pre + ("Reg_(" + IntToString(p.x) + ")-(" + IntToString(p.y) + ").sav");
    assert GetWorldPath(savedDir, name)[|pre|] == 'W';
  }
}
