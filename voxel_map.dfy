/**
  The `TMap<int, int>` that a sub-chunk uses to map a voxel index to a voxel
  id. A TMap keeps its keys unique and iterates its pairs in the order they
  were added: it is modelled as a sequence of entries, `Add` overwrites the
  value of an existing key in place and appends a new key at the end, and
  `Remove` deletes the entry of a key.
*/
module VoxelMap {

  datatype Entry = Entry(key: int, value: int)

  /** Every key occurs at most once, as in a TMap. */
  ghost predicate Distinct(e: seq<Entry>) {
    forall i, j :: 0 <= i < j < |e| ==> e[i].key != e[j].key
  }

  /** The position of the first entry whose key is `k`, or -1. */
  function IndexOf(e: seq<Entry>, k: int): (r: int)
    ensures -1 <= r < |e|
    ensures r >= 0 ==> e[r].key == k
  {
    if e == [] then -1
    else if e[0].key == k then 0
    else
      var r := IndexOf(e[1..], k);
      if r < 0 then -1 else r + 1
  }

  /** `map.Contains(k)`. */
  predicate Contains(e: seq<Entry>, k: int) {
    IndexOf(e, k) >= 0
  }

  /** The first entry with key `k` is at or before any entry with that key. */
  lemma {:induction false} IndexOfFirst(e: seq<Entry>, k: int, i: int)
    requires 0 <= i < |e| && e[i].key == k
    ensures 0 <= IndexOf(e, k) <= i
    decreases i
  {
    if e[0].key != k {
      IndexOfFirst(e[1..], k, i - 1);
    }
  }

  /** No entry has a key that `IndexOf` does not find. */
  lemma {:induction false} IndexOfMissing(e: seq<Entry>, k: int, i: int)
    requires IndexOf(e, k) < 0 && 0 <= i < |e|
    ensures e[i].key != k
    decreases i
  {
    if i > 0 {
      IndexOfMissing(e[1..], k, i - 1);
    }
  }

  /** A key that no entry has is not contained. */
  lemma NotContains(e: seq<Entry>, k: int)
    requires forall i :: 0 <= i < |e| ==> e[i].key != k
    ensures !Contains(e, k)
  {
  }

  /** `Contains` holds exactly when some entry has the key. */
  lemma ContainsIff(e: seq<Entry>, k: int)
    ensures Contains(e, k) <==> exists i :: 0 <= i < |e| && e[i].key == k
  {
    if exists i :: 0 <= i < |e| && e[i].key == k {
      var i :| 0 <= i < |e| && e[i].key == k;
      IndexOfFirst(e, k, i);
    }
  }

  /** `map[k]` for a key that is present. */
  function Get(e: seq<Entry>, k: int): int
    requires Contains(e, k)
  {
    e[IndexOf(e, k)].value
  }

  /** `map.Add(k, v)`: replaces the value of an existing key, appends a new one. */
  function Add(e: seq<Entry>, k: int, v: int): seq<Entry> {
    var i := IndexOf(e, k);
    if i < 0 then e + [Entry(k, v)] else e[i := Entry(k, v)]
  }

  /** `map.Remove(k)`. */
  function Remove(e: seq<Entry>, k: int): seq<Entry> {
    var i := IndexOf(e, k);
    if i < 0 then e else e[..i] + e[i + 1..]
  }

  /** `map.Append(other)`: adds the pairs of `f` one by one, in order. */
  function Append(e: seq<Entry>, f: seq<Entry>): seq<Entry>
    decreases |f|
  {
    if f == [] then e
    else Add(Append(e, f[..|f| - 1]), f[|f| - 1].key, f[|f| - 1].value)
  }

  /** With unique keys, the value stored at any entry is the value of its key. */
  lemma GetAt(e: seq<Entry>, j: int)
    requires Distinct(e) && 0 <= j < |e|
    ensures Contains(e, e[j].key) && Get(e, e[j].key) == e[j].value
  {
    IndexOfFirst(e, e[j].key, j);
  }

  /** Adding keeps the keys unique. */
  lemma AddDistinct(e: seq<Entry>, k: int, v: int)
    requires Distinct(e)
    ensures Distinct(Add(e, k, v))
  {
    if IndexOf(e, k) < 0 {
      forall j | 0 <= j < |e| ensures e[j].key != k {
        IndexOfMissing(e, k, j);
      }
    }
  }

  /** What `Add` does at one key `x`. */
  lemma AddAt(e: seq<Entry>, k: int, v: int, x: int)
    requires Distinct(e)
    ensures Contains(Add(e, k, v), x) <==> Contains(e, x) || x == k
    ensures Contains(Add(e, k, v), x) ==> Get(Add(e, k, v), x) == if x == k then v else Get(e, x)
  {
    var a := Add(e, k, v);
    var i := IndexOf(e, k);
    AddDistinct(e, k, v);
    if x == k {
      GetAt(a, if i < 0 then |e| else i);
    } else if Contains(e, x) {
      GetAt(a, IndexOf(e, x));
    } else {
      forall j | 0 <= j < |a| ensures a[j].key != x {
        if j < |e| && j != i {
          IndexOfMissing(e, x, j);
        }
      }
      NotContains(a, x);
    }
  }

  /** Adding loses no key and holds the added one, even where keys repeat. */
  lemma AddKeeps(e: seq<Entry>, k: int, v: int, x: int)
    ensures Contains(Add(e, k, v), k)
    ensures Contains(e, x) ==> Contains(Add(e, k, v), x)
  {
    var a := Add(e, k, v);
    var i := IndexOf(e, k);
    IndexOfFirst(a, k, if i < 0 then |e| else i);
    if Contains(e, x) && x != k {
      var j := IndexOf(e, x);
      assert a[j] == e[j];
      IndexOfFirst(a, x, j);
    }
  }

  /** Removing one key keeps every other key, even where keys repeat. */
  lemma RemoveKeeps(e: seq<Entry>, k: int, x: int)
    requires Contains(e, x) && x != k
    ensures Contains(Remove(e, k), x)
  {
    var i := IndexOf(e, k);
    if i >= 0 {
      var r := e[..i] + e[i + 1..];
      var j := IndexOf(e, x);
      var j' := if j < i then j else j - 1;
      assert r[j'] == e[j];
      IndexOfFirst(r, x, j');
    }
  }

  /** Adding a key that is not present appends it. */
  lemma AddFresh(e: seq<Entry>, k: int, v: int)
    requires !Contains(e, k)
    ensures Add(e, k, v) == e + [Entry(k, v)]
  {
  }

  /** Adding keeps the keys unique and updates the map at one key only. */
  lemma AddSpec(e: seq<Entry>, k: int, v: int)
    requires Distinct(e)
    ensures Distinct(Add(e, k, v))
    ensures forall x :: Contains(Add(e, k, v), x) <==> Contains(e, x) || x == k
    ensures Get(Add(e, k, v), k) == v
    ensures forall x :: x != k && Contains(e, x) ==> Get(Add(e, k, v), x) == Get(e, x)
    ensures !Contains(e, k) ==> Add(e, k, v) == e + [Entry(k, v)]
  {
    AddDistinct(e, k, v);
    forall x ensures Contains(Add(e, k, v), x) <==> Contains(e, x) || x == k {
      AddAt(e, k, v, x);
    }
    AddAt(e, k, v, k);
    forall x | x != k && Contains(e, x) ensures Get(Add(e, k, v), x) == Get(e, x) {
      AddAt(e, k, v, x);
    }
  }

  /** Deleting the entry at `i` shifts the later entries down by one. */
  lemma DeleteAt(e: seq<Entry>, i: int)
    requires Distinct(e) && 0 <= i < |e|
    ensures var r := e[..i] + e[i + 1..];
      |r| == |e| - 1 && Distinct(r)
      && (forall j :: 0 <= j < i ==> r[j] == e[j])
      && (forall j :: i <= j < |r| ==> r[j] == e[j + 1])
  {
    var r := e[..i] + e[i + 1..];
    assert forall j :: 0 <= j < |r| ==> r[j] == (if j < i then e[j] else e[j + 1]);
  }

  /** Deleting the entry at `i` keeps every other key and its value. */
  lemma DeleteKeeps(e: seq<Entry>, i: int, x: int)
    requires Distinct(e) && 0 <= i < |e| && Contains(e, x) && x != e[i].key
    ensures Contains(e[..i] + e[i + 1..], x) && Get(e[..i] + e[i + 1..], x) == Get(e, x)
  {
    var r := e[..i] + e[i + 1..];
    DeleteAt(e, i);
    var j := IndexOf(e, x);
    var j' := if j < i then j else j - 1;
    assert r[j'] == e[j];
    GetAt(r, j');
  }

  /** Deleting the entry at `i` adds no key and removes the key at `i`. */
  lemma DeleteDrops(e: seq<Entry>, i: int, x: int)
    requires Distinct(e) && 0 <= i < |e| && Contains(e[..i] + e[i + 1..], x)
    ensures Contains(e, x) && x != e[i].key
  {
    var r := e[..i] + e[i + 1..];
    DeleteAt(e, i);
    var j := IndexOf(r, x);
    var j' := if j < i then j else j + 1;
    assert r[j] == e[j'];
    IndexOfFirst(e, x, j');
  }

  /** What `Remove` does at one key `x`. */
  lemma RemoveAt(e: seq<Entry>, k: int, x: int)
    requires Distinct(e)
    ensures Distinct(Remove(e, k))
    ensures Contains(Remove(e, k), x) <==> Contains(e, x) && x != k
    ensures Contains(Remove(e, k), x) ==> Get(Remove(e, k), x) == Get(e, x)
  {
    var i := IndexOf(e, k);
    if i >= 0 {
      DeleteAt(e, i);
      if Contains(Remove(e, k), x) {
        DeleteDrops(e, i, x);
      }
      if Contains(e, x) && x != k {
        DeleteKeeps(e, i, x);
      }
    }
  }

  /** Removing keeps the keys unique and deletes one key from the map. */
  lemma RemoveSpec(e: seq<Entry>, k: int)
    requires Distinct(e)
    ensures Distinct(Remove(e, k))
    ensures forall x :: Contains(Remove(e, k), x) <==> Contains(e, x) && x != k
    ensures forall x :: x != k && Contains(e, x) ==> Get(Remove(e, k), x) == Get(e, x)
  {
    RemoveAt(e, k, k);
    forall x ensures Contains(Remove(e, k), x) <==> Contains(e, x) && x != k {
      RemoveAt(e, k, x);
    }
    forall x | x != k && Contains(e, x) ensures Get(Remove(e, k), x) == Get(e, x) {
      RemoveAt(e, k, x);
    }
  }

  /** A map with one more pair at its end, at one key `x`. */
  lemma SnocAt(f: seq<Entry>, x: int)
    requires Distinct(f) && f != []
    ensures var front, last := f[..|f| - 1], f[|f| - 1];
      Distinct(front)
      && (Contains(f, x) <==> Contains(front, x) || x == last.key)
      && (Contains(f, x) ==> Get(f, x) == if x == last.key then last.value else Get(front, x))
  {
    var front, last := f[..|f| - 1], f[|f| - 1];
    GetAt(f, |f| - 1);
    if Contains(front, x) {
      var j := IndexOf(front, x);
      GetAt(f, j);
    } else if x != last.key {
      forall j | 0 <= j < |f| ensures f[j].key != x {
        if j < |f| - 1 {
          IndexOfMissing(front, x, j);
        }
      }
      NotContains(f, x);
    }
  }

  lemma {:induction false} AppendDistinct(e: seq<Entry>, f: seq<Entry>)
    requires Distinct(e)
    ensures Distinct(Append(e, f))
    decreases |f|
  {
    if f != [] {
      AppendDistinct(e, f[..|f| - 1]);
      AddDistinct(Append(e, f[..|f| - 1]), f[|f| - 1].key, f[|f| - 1].value);
    }
  }

  /** What `Append` does at one key `x`: the appended map wins. */
  lemma {:induction false} AppendAt(e: seq<Entry>, f: seq<Entry>, x: int)
    requires Distinct(e) && Distinct(f)
    ensures Contains(Append(e, f), x) <==> Contains(e, x) || Contains(f, x)
    ensures Contains(Append(e, f), x) ==> Get(Append(e, f), x) == if Contains(f, x) then Get(f, x) else Get(e, x)
    decreases |f|
  {
    if f != [] {
      var front, last := f[..|f| - 1], f[|f| - 1];
      SnocAt(f, x);
      AppendAt(e, front, x);
      AppendDistinct(e, front);
      AddAt(Append(e, front), last.key, last.value, x);
    }
  }

  /** Appending a map is a union in which the appended pairs win. */
  lemma AppendSpec(e: seq<Entry>, f: seq<Entry>)
    requires Distinct(e) && Distinct(f)
    ensures Distinct(Append(e, f))
    ensures forall x :: Contains(Append(e, f), x) <==> Contains(e, x) || Contains(f, x)
    ensures forall x :: Contains(f, x) ==> Get(Append(e, f), x) == Get(f, x)
    ensures forall x :: Contains(e, x) && !Contains(f, x) ==> Get(Append(e, f), x) == Get(e, x)
  {
    AppendDistinct(e, f);
    forall x ensures Contains(Append(e, f), x) <==> Contains(e, x) || Contains(f, x) {
      AppendAt(e, f, x);
    }
    forall x | Contains(f, x) ensures Get(Append(e, f), x) == Get(f, x) {
      AppendAt(e, f, x);
    }
    forall x | Contains(e, x) && !Contains(f, x) ensures Get(Append(e, f), x) == Get(e, x) {
      AppendAt(e, f, x);
    }
  }
}
