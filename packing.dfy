/**
  How a chunk's voxel grid is packed into sub-chunks before it is saved: the
  grid is cut into `h / w` horizontal slabs, each slab's most frequent voxel id
  is found from a histogram, and when that id fills more than 40% of a slab the
  leading copies of it are left out of the stored map.
*/
module Packing {
  import opened VoxelMap
  import opened SaveInfo
  import opened ByteFields

  // Slabs

  /** The first grid index of slab `s` when `n` cells are cut into `k` slabs. */
  function SlabStart(n: int, k: int, s: int): int
    requires k > 0
  {
    (n * s) / k
  }

  lemma DivMonotone(a: int, b: int, k: int)
    requires 0 <= a <= b && k > 0
    ensures a / k <= b / k
  {
    var qa, ra := a / k, a % k;
    var qb, rb := b / k, b % k;
    if qa > qb {
      assert k * qa >= k * (qb + 1) by {
        MulMonotone(k, qb + 1, qa);
      }
    }
  }

  lemma MulMonotone(k: int, a: int, b: int)
    requires k >= 0 && a <= b
    ensures k * a <= k * b
  {
  }

  /** Slab starts never decrease and stay inside the grid. */
  lemma SlabBounds(n: int, k: int, s: int)
    requires n >= 0 && k > 0 && 0 <= s < k
    ensures 0 <= SlabStart(n, k, s) <= SlabStart(n, k, s + 1) <= n
  {
    MulMonotone(n, s, s + 1);
    MulMonotone(n, s + 1, k);
    DivMonotone(n * s, n * (s + 1), k);
    DivMonotone(n * (s + 1), n * k, k);
  }

  /** The cells of slab `s`: grid entries `[n·s/k, n·(s+1)/k)`. */
  function Slab(ids: seq<int>, k: int, s: int): seq<int>
    requires k > 0 && 0 <= s < k
  {
    SlabBounds(|ids|, k, s);
    ids[SlabStart(|ids|, k, s)..SlabStart(|ids|, k, s + 1)]
  }

  /** Each slab holds `|ids|·(s+1)/k - |ids|·s/k` cells of the grid, in grid order. */
  lemma SlabCells(ids: seq<int>, k: int, s: int)
    requires k > 0 && 0 <= s < k
    ensures var start := SlabStart(|ids|, k, s);
      0 <= start && start + |Slab(ids, k, s)| == SlabStart(|ids|, k, s + 1) <= |ids|
      && forall j :: 0 <= j < |Slab(ids, k, s)| ==> Slab(ids, k, s)[j] == ids[start + j]
  {
    SlabBounds(|ids|, k, s);
  }

  /** When `k` divides the grid, slab `s` is the `s`-th run of `n / k` cells. */
  lemma SlabOfEvenSplit(ids: seq<int>, k: int, c: int, s: int)
    requires k > 0 && c >= 0 && |ids| == k * c && 0 <= s < k
    ensures SlabStart(|ids|, k, s) == c * s && SlabStart(|ids|, k, s + 1) == c * s + c
    ensures 0 <= c * s && c * s + c <= |ids|
    ensures Slab(ids, k, s) == ids[c * s..c * s + c]
  {
    SlabStartOfMultiple(k, c, s);
    SlabStartOfMultiple(k, c, s + 1);
    assert c * (s + 1) == c * s + c;
    SlabBounds(|ids|, k, s);
  }

  lemma SlabStartOfMultiple(k: int, c: int, s: int)
    requires k > 0
    ensures SlabStart(k * c, k, s) == c * s
  {
    assert (k * c) * s == k * (c * s);
    DivModUnique(k * (c * s), k, c * s, 0);
  }

  // The histogram

  ghost predicate NonNegative(vals: seq<int>) {
    forall i :: 0 <= i < |vals| ==> vals[i] >= 0
  }

  /**
    One more value `v` counted: a histogram too short for `v` first grows to
    `v + 1` entries, the new ones zero.
  */
  function Tally(h: seq<int>, v: nat): seq<int> {
    var g := if v < |h| then h else h + seq(v + 1 - |h|, _ => 0);
    g[v := g[v] + 1]
  }

  /** A slab of a grid without negative ids has none either. */
  lemma SlabNonNegative(ids: seq<int>, k: int, s: int)
    requires k > 0 && 0 <= s < k && NonNegative(ids)
    ensures NonNegative(Slab(ids, k, s))
  {
    SlabCells(ids, k, s);
  }

  /** Counting `v` adds one at `v` and leaves every other count as it was. */
  lemma TallyAt(h: seq<int>, v: nat)
    ensures |Tally(h, v)| == if v < |h| then |h| else v + 1
    ensures forall u :: 0 <= u < |Tally(h, v)| ==>
      Tally(h, v)[u] == (if u < |h| then h[u] else 0) + (if u == v then 1 else 0)
  {
  }

  /** `numOfVoxelValues` after counting every value of `vals` in order. */
  function Histogram(vals: seq<int>): seq<int>
    requires NonNegative(vals)
    decreases |vals|
  {
    if vals == [] then [] else Tally(Histogram(vals[..|vals| - 1]), vals[|vals| - 1])
  }

  /** Entry `v` of the histogram is the number of cells holding `v`. */
  lemma {:induction false} HistogramCounts(vals: seq<int>)
    requires NonNegative(vals)
    ensures forall v :: 0 <= v < |Histogram(vals)| ==> Histogram(vals)[v] == multiset(vals)[v]
    decreases |vals|
  {
    if vals != [] {
      var front, last := vals[..|vals| - 1], vals[|vals| - 1];
      assert vals == front + [last];
      HistogramCounts(front);
      HistogramCovers(front);
      var h0 := Histogram(front);
      TallyAt(h0, last);
      forall v | 0 <= v < |Histogram(vals)| ensures Histogram(vals)[v] == multiset(vals)[v] {
        assert multiset(vals)[v] == multiset(front)[v] + (if v == last then 1 else 0);
        if v >= |h0| {
          assert v !in front;
        }
      }
    }
  }

  /**
    The histogram is just long enough for the largest id: every id is an index
    of it, and its last index is an id that occurs.
  */
  lemma {:induction false} HistogramCovers(vals: seq<int>)
    requires NonNegative(vals)
    ensures forall i :: 0 <= i < |vals| ==> vals[i] < |Histogram(vals)|
    ensures |Histogram(vals)| == 0 <==> vals == []
    ensures |Histogram(vals)| > 0 ==> |Histogram(vals)| - 1 in vals
    decreases |vals|
  {
    if vals != [] {
      var front, last := vals[..|vals| - 1], vals[|vals| - 1];
      HistogramCovers(front);
      var h0 := Histogram(front);
      TallyAt(h0, last);
      forall i | 0 <= i < |vals| ensures vals[i] < |Histogram(vals)| {
        if i < |front| {
          assert vals[i] == front[i];
        }
      }
      if |Histogram(vals)| - 1 != last {
        assert |h0| - 1 in front;
      }
    }
  }

  /** A count never exceeds the number of cells counted. */
  lemma {:induction false} HistogramBound(vals: seq<int>)
    requires NonNegative(vals)
    ensures forall v :: 0 <= v < |Histogram(vals)| ==> 0 <= Histogram(vals)[v] <= |vals|
    decreases |vals|
  {
    if vals != [] {
      HistogramBound(vals[..|vals| - 1]);
    }
  }

  // The most frequent value

  /** The largest count and the first id that has it; `id` is -1 for an empty histogram. */
  datatype Mode = Mode(count: int, id: int)

  /**
    `FMath::Max` over an array with an index out-parameter: the largest value
    and the position of its first occurrence, or `(0, INDEX_NONE)` when the
    array is empty.
  */
  function FirstMax(h: seq<int>): (r: Mode)
    ensures h == [] ==> r == Mode(0, -1)
    ensures h != [] ==> 0 <= r.id < |h| && h[r.id] == r.count
    ensures forall j :: 0 <= j < |h| ==> h[j] <= r.count
    ensures forall j :: 0 <= j < r.id ==> h[j] < r.count
    decreases |h|
  {
    if h == [] then Mode(0, -1)
    else if |h| == 1 then Mode(h[0], 0)
    else
      var m := FirstMax(h[..|h| - 1]);
      if m.count < h[|h| - 1] then Mode(h[|h| - 1], |h| - 1) else m
  }

  /** The mode of a slab. */
  function SlabMode(slab: seq<int>): (m: Mode)
    requires NonNegative(slab)
    ensures 0 <= m.count <= |slab|
  {
    HistogramBound(slab);
    FirstMax(Histogram(slab))
  }

  /**
    The removed voxel is the most frequent id of the slab, and the smallest of
    the ids tied for most frequent; an empty slab has none.
  */
  lemma SlabModeIsFirstMostFrequent(slab: seq<int>)
    requires NonNegative(slab)
    ensures var m := SlabMode(slab);
      (slab == [] ==> m == Mode(0, -1))
      && (slab != [] ==> m.id in slab && multiset(slab)[m.id] == m.count)
      && (forall v :: multiset(slab)[v] <= m.count)
      && (forall v :: 0 <= v < m.id ==> multiset(slab)[v] < m.count)
  {
    var h := Histogram(slab);
    var m := SlabMode(slab);
    HistogramCounts(slab);
    HistogramCovers(slab);
    forall v ensures multiset(slab)[v] <= m.count {
      if v in slab {
        var i :| 0 <= i < |slab| && slab[i] == v;
        assert 0 <= v < |h|;
      }
    }
    forall v | 0 <= v < m.id ensures multiset(slab)[v] < m.count {
      assert m.id < |h|;
      if v !in slab {
        assert h[|h| - 1] == multiset(slab)[|h| - 1] >= 1;
      }
    }
    if slab != [] {
      assert m.id < |h|;
      assert h[m.id] >= h[|h| - 1] == multiset(slab)[|h| - 1] >= 1;
    }
  }

  // The stored map

  /** The pairs `(from + t, s[from + t])` for every later position: cells stored as they are. */
  function Listed(s: seq<int>, from: int): seq<Entry>
    requires 0 <= from <= |s|
  {
    seq(|s| - from, t requires 0 <= t < |s| - from => Entry(from + t, s[from + t]))
  }

  /** The pairs `(j, s[j])` whose value is not `removed`, in key order. */
  function Dropped(s: seq<int>, removed: int): seq<Entry>
    decreases |s|
  {
    if s == [] then []
    else Dropped(s[..|s| - 1], removed) + (if s[|s| - 1] == removed then [] else [Entry(|s| - 1, s[|s| - 1])])
  }

  /** The map once the elision loop has inspected keys `[0, m)`: later keys are all still there. */
  function Elided(s: seq<int>, removed: int, m: int): seq<Entry>
    requires 0 <= m <= |s|
  {
    Dropped(s[..m], removed) + Listed(s, m)
  }

  /** One more cell read into the sub-chunk: its pair is appended under the next key, and its id counted. */
  lemma PackStep(p: seq<int>, v: int)
    requires NonNegative(p) && v >= 0
    ensures NonNegative(p + [v])
    ensures Add(Listed(p, 0), |p|, v) == Listed(p + [v], 0)
    ensures Histogram(p + [v]) == Tally(Histogram(p), v)
  {
    ListedAppend(p, v);
    HistogramAppend(p, v);
  }

  lemma ListedAppend(p: seq<int>, v: int)
    ensures Add(Listed(p, 0), |p|, v) == Listed(p + [v], 0)
  {
    ListedMap(p, |p|);
    AddFresh(Listed(p, 0), |p|, v);
    assert Listed(p, 0) + [Entry(|p|, v)] == Listed(p + [v], 0);
  }

  lemma HistogramAppend(p: seq<int>, v: int)
    requires NonNegative(p) && v >= 0
    ensures NonNegative(p + [v])
    ensures Histogram(p + [v]) == Tally(Histogram(p), v)
  {
    assert (p + [v])[..|p|] == p;
  }

  /** The sub-chunk packed from slab `s` of `k`, at chunk column `(x, y)`. */
  function SubChunk(ids: seq<int>, k: int, s: int, x: int, y: int): ChunkInformation
    requires k > 0 && 0 <= s < k && NonNegative(ids)
  {
    var slab := Slab(ids, k, s);
    SlabNonNegative(ids, k, s);
    var mode := SlabMode(slab);
    var compressed := 5 * mode.count > 2 * (|ids| / k);
    var voxels := if compressed then Elided(slab, mode.id, mode.count) else Listed(slab, 0);
    ChunkInformation(Vec3i(x, y, s), voxels, |voxels|, compressed, mode.id, true)
  }

  /** The sub-chunks of a chunk whose grid is `ids`, `h / w` slabs of it. */
  function Gathered(ids: seq<int>, k: int, x: int, y: int): seq<ChunkInformation>
    requires k > 0 ==> NonNegative(ids)
  {
    if k <= 0 then [] else seq(k, s requires 0 <= s < k => SubChunk(ids, k, s, x, y))
  }

  // What the stored map holds

  /** Every dropped-form pair is a cell of `s` that does not hold `removed`. */
  lemma {:induction false} DroppedEntries(s: seq<int>, removed: int)
    ensures forall i :: 0 <= i < |Dropped(s, removed)| ==>
      var e := Dropped(s, removed)[i]; 0 <= e.key < |s| && s[e.key] == e.value && e.value != removed
    ensures forall i, j :: 0 <= i < j < |Dropped(s, removed)| ==> Dropped(s, removed)[i].key < Dropped(s, removed)[j].key
    ensures forall j :: 0 <= j < |s| && s[j] != removed ==> exists i :: 0 <= i < |Dropped(s, removed)| && Dropped(s, removed)[i].key == j
    decreases |s|
  {
    if s != [] {
      var front := s[..|s| - 1];
      DroppedEntries(front, removed);
      var d := Dropped(s, removed);
      var d0 := Dropped(front, removed);
      assert forall i :: 0 <= i < |d0| ==> d[i] == d0[i];
      forall j | 0 <= j < |s| && s[j] != removed
        ensures exists i :: 0 <= i < |d| && d[i].key == j
      {
        if j < |front| {
          assert front[j] == s[j];
          var i :| 0 <= i < |d0| && d0[i].key == j;
          assert d[i].key == j;
        } else {
          assert d[|d0|].key == j;
        }
      }
    }
  }

  /** The key `k` is found right after a prefix that does not hold it. */
  lemma {:induction false} IndexOfAfter(a: seq<Entry>, b: seq<Entry>, k: int)
    requires forall i :: 0 <= i < |a| ==> a[i].key != k
    requires b != [] && b[0].key == k
    ensures IndexOf(a + b, k) == |a|
    decreases |a|
  {
    if a != [] {
      assert (a + b)[1..] == a[1..] + b;
      IndexOfAfter(a[1..], b, k);
    }
  }

  /** Before key `j` is inspected, the map is the kept pairs of keys below `j`, then `j`, then the rest. */
  lemma ElidedAt(s: seq<int>, removed: int, j: int)
    requires 0 <= j < |s|
    ensures var d := Dropped(s[..j], removed);
      (forall i :: 0 <= i < |d| ==> d[i].key != j)
      && Elided(s, removed, j) == d + [Entry(j, s[j])] + Listed(s, j + 1)
  {
    DroppedEntries(s[..j], removed);
    assert Listed(s, j) == [Entry(j, s[j])] + Listed(s, j + 1);
  }

  /** Key `j` is still stored with its cell's value when the elision loop reaches it. */
  lemma ElideFinds(s: seq<int>, removed: int, j: int)
    requires 0 <= j < |s|
    ensures Contains(Elided(s, removed, j), j) && Get(Elided(s, removed, j), j) == s[j]
  {
    var d := Dropped(s[..j], removed);
    ElidedAt(s, removed, j);
    IndexOfAfter(d, [Entry(j, s[j])] + Listed(s, j + 1), j);
    assert d + [Entry(j, s[j])] + Listed(s, j + 1) == d + ([Entry(j, s[j])] + Listed(s, j + 1));
  }

  /** One round of the elision loop: removing key `j` when it holds `removed` gives the map after key `j`. */
  lemma ElideStep(s: seq<int>, removed: int, j: int)
    requires 0 <= j < |s|
    ensures (if s[j] == removed then Remove(Elided(s, removed, j), j) else Elided(s, removed, j))
      == Elided(s, removed, j + 1)
  {
    var d := Dropped(s[..j], removed);
    var e := Elided(s, removed, j);
    ElidedAt(s, removed, j);
    ElideFinds(s, removed, j);
    assert s[..j + 1][..j] == s[..j];
    assert s[..j + 1][j] == s[j];
    if s[j] == removed {
      assert IndexOf(e, j) == |d|;
      assert e[..|d|] + e[|d| + 1..] == d + Listed(s, j + 1);
    }
  }

  /** The pairs stored for a whole slab have the keys `0 .. |s|-1`, in order. */
  lemma ListedEntries(s: seq<int>, from: int)
    requires 0 <= from <= |s|
    ensures forall i :: 0 <= i < |Listed(s, from)| ==> Listed(s, from)[i] == Entry(from + i, s[from + i])
    ensures Distinct(Listed(s, from))
  {
  }

  /** A stored map after elision: which keys it holds and with which values. */
  lemma ElidedMap(s: seq<int>, removed: int, m: int, x: int)
    requires 0 <= m <= |s|
    ensures Distinct(Elided(s, removed, m))
    ensures Contains(Elided(s, removed, m), x) <==> 0 <= x < |s| && !(x < m && s[x] == removed)
    ensures Contains(Elided(s, removed, m), x) ==> Get(Elided(s, removed, m), x) == s[x]
  {
    var d := Dropped(s[..m], removed);
    var e := Elided(s, removed, m);
    DroppedEntries(s[..m], removed);
    assert forall i :: 0 <= i < |d| ==> e[i] == d[i];
    assert forall i :: |d| <= i < |e| ==> e[i] == Entry(m + i - |d|, s[m + i - |d|]);
    assert forall i :: 0 <= i < |d| ==> s[..m][d[i].key] == s[d[i].key];
    assert Distinct(e);
    if 0 <= x < |s| && !(x < m && s[x] == removed) {
      var i;
      if x < m {
        assert s[..m][x] == s[x];
        i :| 0 <= i < |d| && d[i].key == x;
      } else {
        i := |d| + x - m;
      }
      assert e[i].key == x;
      GetAt(e, i);
    } else {
      forall i | 0 <= i < |e| ensures e[i].key != x {
        if i < |d| {
          assert s[..m][d[i].key] == s[d[i].key];
        }
      }
      NotContains(e, x);
    }
  }

  /** An uncompressed slab is stored whole. */
  lemma ListedMap(s: seq<int>, x: int)
    ensures Distinct(Listed(s, 0))
    ensures Contains(Listed(s, 0), x) <==> 0 <= x < |s|
    ensures Contains(Listed(s, 0), x) ==> Get(Listed(s, 0), x) == s[x]
  {
    assert Dropped(s[..0], 0) == [];
    assert Elided(s, 0, 0) == Listed(s, 0);
    ElidedMap(s, 0, 0, x);
  }

  /**
    Unpacking restores the slab: every stored key is a cell of the slab with
    its value, and a cell whose key is missing held the removed voxel of a
    compressed sub-chunk. The stored count is the number of stored pairs.
  */
  lemma SubChunkRestores(ids: seq<int>, k: int, s: int, x: int, y: int)
    requires k > 0 && 0 <= s < k && NonNegative(ids)
    ensures var c, slab := SubChunk(ids, k, s, x, y), Slab(ids, k, s);
      Distinct(c.containedVoxel) && c.numOfVoxel == |c.containedVoxel|
      && (forall j :: Contains(c.containedVoxel, j) ==> 0 <= j < |slab| && Get(c.containedVoxel, j) == slab[j])
      && (forall j :: 0 <= j < |slab| && !Contains(c.containedVoxel, j) ==> c.bCompressed && slab[j] == c.removedVoxel)
  {
    var c, slab := SubChunk(ids, k, s, x, y), Slab(ids, k, s);
    SlabNonNegative(ids, k, s);
    var mode := SlabMode(slab);
    if c.bCompressed {
      ElidedMap(slab, mode.id, mode.count, 0);
      forall j ensures (Contains(c.containedVoxel, j) <==> 0 <= j < |slab| && !(j < mode.count && slab[j] == mode.id))
        && (Contains(c.containedVoxel, j) ==> Get(c.containedVoxel, j) == slab[j])
      {
        ElidedMap(slab, mode.id, mode.count, j);
      }
    } else {
      ListedMap(slab, 0);
      forall j ensures (Contains(c.containedVoxel, j) <==> 0 <= j < |slab|)
        && (Contains(c.containedVoxel, j) ==> Get(c.containedVoxel, j) == slab[j])
      {
        ListedMap(slab, j);
      }
    }
  }

  /**
    A slab is compressed exactly when its most frequent id fills strictly more
    than 40% of `n / k` cells, and then only the copies of that id at keys
    below its count are left out: a copy at a later key is still stored.
  */
  lemma SubChunkCompression(ids: seq<int>, k: int, s: int, x: int, y: int)
    requires k > 0 && 0 <= s < k && NonNegative(ids)
    ensures var c, slab := SubChunk(ids, k, s, x, y), Slab(ids, k, s);
      var count := multiset(slab)[c.removedVoxel];
      (c.bCompressed <==> 5 * count > 2 * (|ids| / k))
      && (forall j :: 0 <= j < |slab| ==>
            (Contains(c.containedVoxel, j) <==> !(c.bCompressed && j < count && slab[j] == c.removedVoxel)))
  {
    var c, slab := SubChunk(ids, k, s, x, y), Slab(ids, k, s);
    SlabNonNegative(ids, k, s);
    var mode := SlabMode(slab);
    SlabModeIsFirstMostFrequent(slab);
    if slab == [] {
      assert multiset(slab)[c.removedVoxel] == 0;
    }
    forall j | 0 <= j < |slab|
      ensures Contains(c.containedVoxel, j) <==> !(c.bCompressed && j < mode.count && slab[j] == c.removedVoxel)
    {
      if c.bCompressed {
        ElidedMap(slab, mode.id, mode.count, j);
      } else {
        ListedMap(slab, j);
      }
    }
  }

  /** The removed voxel is the first most frequent id of its slab. */
  lemma SubChunkRemovesMode(ids: seq<int>, k: int, s: int, x: int, y: int)
    requires k > 0 && 0 <= s < k && NonNegative(ids)
    ensures var c, slab := SubChunk(ids, k, s, x, y), Slab(ids, k, s);
      (forall v :: multiset(slab)[v] <= multiset(slab)[c.removedVoxel])
      && (forall v :: 0 <= v < c.removedVoxel ==> multiset(slab)[v] < multiset(slab)[c.removedVoxel])
      && (slab == [] <==> c.removedVoxel == -1)
  {
    var slab := Slab(ids, k, s);
    SlabNonNegative(ids, k, s);
    SlabModeIsFirstMostFrequent(slab);
  }

  /**
    The threshold leaves late copies behind: in the slab `[1, 0, 0]` id 0 is
    the mode with count 2 and is compressed, but only key 1 is inspected and
    removed, so the copy at key 2 is stored.
  */
  lemma ElisionStopsAtCount()
    ensures SubChunk([1, 0, 0], 1, 0, 0, 0).containedVoxel == [Entry(0, 1), Entry(2, 0)]
  {
    var slab := [1, 0, 0];
    assert Slab(slab, 1, 0) == slab;
    assert slab[..2] == [1] + [0];
    assert Histogram([1]) == [0, 1];
    assert slab[..1] == [1];
    assert Histogram(slab[..2]) == [1, 1];
    assert Histogram(slab) == [2, 1];
    assert SlabMode(slab) == Mode(2, 0);
    assert Dropped([1, 0], 0) == [Entry(0, 1)] by {
      assert [1, 0][..1] == [1];
      assert Dropped([1], 0) == [Entry(0, 1)] by {
        assert [1][..0] == [];
      }
    }
  }
}
