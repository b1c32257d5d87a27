/** Sequences of keyed entries in strictly ascending key order, the contents of the sorted array
lists: lookup, insertion and removal as a finite map sees them.
*/
module SortedList {
  import opened Options

  datatype Entry<V> = Entry(key: nat, value: V)

  ghost predicate Sorted<V>(s: seq<Entry<V>>) {
    forall i, j :: 0 <= i < j < |s| ==> s[i].key < s[j].key
  }

  function Get<V>(s: seq<Entry<V>>, k: nat): Option<V> {
    if s == [] then None
    else if s[0].key == k then Some(s[0].value)
    else Get(s[1..], k)
  }

  function InsertSorted<V>(s: seq<Entry<V>>, e: Entry<V>): (r: seq<Entry<V>>)
    ensures |r| == |s| + 1
  {
    if s == [] || e.key <= s[0].key then [e] + s else [s[0]] + InsertSorted(s[1..], e)
  }

  function RemoveAt<V>(s: seq<Entry<V>>, i: nat): seq<Entry<V>>
    requires i < |s|
  {
    s[..i] + s[i + 1..]
  }

  lemma {:induction false} GetAt<V>(s: seq<Entry<V>>, i: nat)
    requires Sorted(s) && i < |s|
    ensures Get(s, s[i].key) == Some(s[i].value)
  {
    if i > 0 {
      assert s[1..][i - 1] == s[i];
      GetAt(s[1..], i - 1);
    }
  }

  lemma {:induction false} GetFound<V>(s: seq<Entry<V>>, k: nat) returns (i: nat)
    requires Get(s, k).Some?
    ensures i < |s| && s[i] == Entry(k, Get(s, k).value)
  {
    if s[0].key == k {
      i := 0;
    } else {
      var j := GetFound(s[1..], k);
      i := j + 1;
    }
  }

  lemma {:induction false} GetNone<V>(s: seq<Entry<V>>, k: nat)
    ensures Get(s, k).None? <==> forall i :: 0 <= i < |s| ==> s[i].key != k
  {
    if s != [] {
      GetNone(s[1..], k);
      assert forall i :: 1 <= i < |s| ==> s[1..][i - 1] == s[i];
    }
  }

  /** Two sorted lists with the same lookups are the same list: the map is all there is. */
  lemma {:induction false} SortedIsMap<V>(s: seq<Entry<V>>, t: seq<Entry<V>>)
    requires Sorted(s) && Sorted(t) && forall k: nat :: Get(s, k) == Get(t, k)
    ensures s == t
    decreases |s|
  {
    if s == [] {
      if t != [] { GetAt(t, 0); }
    } else {
      GetAt(s, 0);
      var i := GetFound(t, s[0].key);
      GetAt(t, 0);
      var j := GetFound(s, t[0].key);
      assert s[0] == t[0];
      forall k: nat ensures Get(s[1..], k) == Get(t[1..], k) {
        assert Get(s, k) == Get(t, k);
        if k == s[0].key {
          GetNone(s[1..], k);
          GetNone(t[1..], k);
        }
      }
      SortedIsMap(s[1..], t[1..]);
      assert s == [s[0]] + s[1..] && t == [t[0]] + t[1..];
    }
  }

  /** The position where a new entry goes: the number of smaller keys. */
  function Position<V>(s: seq<Entry<V>>, k: nat): (p: nat)
    ensures p <= |s|
  {
    if s == [] || k <= s[0].key then 0 else 1 + Position(s[1..], k)
  }

  lemma {:induction false} InsertIsAtPosition<V>(s: seq<Entry<V>>, e: Entry<V>)
    ensures var p := Position(s, e.key); InsertSorted(s, e) == s[..p] + [e] + s[p..]
  {
    var p := Position(s, e.key);
    if s == [] || e.key <= s[0].key {
      assert s[..0] + [e] + s[0..] == [e] + s;
    } else {
      InsertIsAtPosition(s[1..], e);
      assert s[..p] == [s[0]] + s[1..][..p - 1];
      assert s[p..] == s[1..][p - 1..];
    }
  }

  lemma {:induction false} PositionSplits<V>(s: seq<Entry<V>>, k: nat)
    requires Sorted(s)
    ensures forall i :: 0 <= i < Position(s, k) ==> s[i].key < k
    ensures forall i :: Position(s, k) <= i < |s| ==> k <= s[i].key
  {
    if s == [] || k <= s[0].key {
    } else {
      PositionSplits(s[1..], k);
      assert forall i :: 1 <= i < |s| ==> s[1..][i - 1] == s[i];
    }
  }

  lemma {:induction false} PositionUnique<V>(s: seq<Entry<V>>, k: nat, p: nat)
    requires p <= |s|
    requires forall i :: 0 <= i < p ==> s[i].key < k
    requires forall i :: p <= i < |s| ==> k <= s[i].key
    ensures Position(s, k) == p
  {
    if s != [] && s[0].key < k {
      assert forall i :: 1 <= i < |s| ==> s[1..][i - 1] == s[i];
      PositionUnique(s[1..], k, p - 1);
    }
  }

  /** Inserting a new key keeps the order and adds just that key to the map. */
  lemma {:induction false} InsertKeeps<V>(s: seq<Entry<V>>, e: Entry<V>)
    requires Sorted(s) && Get(s, e.key).None?
    ensures Sorted(InsertSorted(s, e))
    ensures forall k: nat :: Get(InsertSorted(s, e), k) == if k == e.key then Some(e.value) else Get(s, k)
  {
    GetNone(s, e.key);
    PositionSplits(s, e.key);
    InsertIsAtPosition(s, e);
    forall k: nat ensures Get(InsertSorted(s, e), k) == if k == e.key then Some(e.value) else Get(s, k) {
      InsertGet(s, e, k);
    }
  }

  lemma {:induction false} InsertGet<V>(s: seq<Entry<V>>, e: Entry<V>, k: nat)
    requires forall i :: 0 <= i < |s| ==> s[i].key != e.key
    ensures Get(InsertSorted(s, e), k) == if k == e.key then Some(e.value) else Get(s, k)
  {
    if s == [] || e.key <= s[0].key {
      assert ([e] + s)[1..] == s;
    } else {
      assert forall i :: 1 <= i < |s| ==> s[1..][i - 1] == s[i];
      InsertGet(s[1..], e, k);
      assert ([s[0]] + InsertSorted(s[1..], e))[1..] == InsertSorted(s[1..], e);
    }
  }

  /** Replacing the value of an entry changes that key only. */
  lemma {:induction false} UpdateKeeps<V>(s: seq<Entry<V>>, i: nat, v: V)
    requires Sorted(s) && i < |s|
    ensures var t := s[i := Entry(s[i].key, v)];
      && Sorted(t)
      && forall k: nat :: Get(t, k) == if k == s[i].key then Some(v) else Get(s, k)
  {
    var t := s[i := Entry(s[i].key, v)];
    forall k: nat ensures Get(t, k) == if k == s[i].key then Some(v) else Get(s, k) {
      GetAt(t, i);
      if k != s[i].key { UpdateGet(s, i, v, k); }
    }
  }

  lemma {:induction false} UpdateGet<V>(s: seq<Entry<V>>, i: nat, v: V, k: nat)
    requires i < |s| && k != s[i].key
    ensures Get(s[i := Entry(s[i].key, v)], k) == Get(s, k)
  {
    if i > 0 {
      UpdateGet(s[1..], i - 1, v, k);
      assert s[i := Entry(s[i].key, v)][1..] == s[1..][i - 1 := Entry(s[i].key, v)];
    } else {
      assert s[0 := Entry(s[0].key, v)][1..] == s[1..];
    }
  }

  /** Removing an entry removes that key from the map, and no other. */
  lemma {:induction false} RemoveKeeps<V>(s: seq<Entry<V>>, i: nat)
    requires Sorted(s) && i < |s|
    ensures Sorted(RemoveAt(s, i))
    ensures forall k: nat :: Get(RemoveAt(s, i), k) == if k == s[i].key then None else Get(s, k)
  {
    forall k: nat ensures Get(RemoveAt(s, i), k) == if k == s[i].key then None else Get(s, k) {
      if k == s[i].key {
        GetNone(RemoveAt(s, i), k);
      } else {
        RemoveGet(s, i, k);
      }
    }
  }

  lemma {:induction false} RemoveGet<V>(s: seq<Entry<V>>, i: nat, k: nat)
    requires i < |s| && k != s[i].key
    ensures Get(RemoveAt(s, i), k) == Get(s, k)
  {
    if i > 0 {
      RemoveGet(s[1..], i - 1, k);
      assert RemoveAt(s, i)[1..] == RemoveAt(s[1..], i - 1);
    } else {
      assert RemoveAt(s, 0) == s[1..];
    }
  }

  /** The list with another value under a key it holds. */
  function Updated<V>(s: seq<Entry<V>>, k: nat, v: V): seq<Entry<V>> {
    if s == [] then [] else if s[0].key == k then [Entry(k, v)] + s[1..] else [s[0]] + Updated(s[1..], k, v)
  }

  /** The list without a key. */
  function Removed<V>(s: seq<Entry<V>>, k: nat): seq<Entry<V>> {
    if s == [] then [] else if s[0].key == k then s[1..] else [s[0]] + Removed(s[1..], k)
  }

  lemma {:induction false} UpdatedAt<V>(s: seq<Entry<V>>, i: nat, v: V)
    requires Sorted(s) && i < |s|
    ensures Updated(s, s[i].key, v) == s[i := Entry(s[i].key, v)]
  {
    if i > 0 {
      UpdatedAt(s[1..], i - 1, v);
      assert s[i := Entry(s[i].key, v)] == [s[0]] + s[1..][i - 1 := Entry(s[i].key, v)];
    } else {
      assert s[0 := Entry(s[0].key, v)] == [Entry(s[0].key, v)] + s[1..];
    }
  }

  lemma {:induction false} RemovedAt<V>(s: seq<Entry<V>>, i: nat)
    requires Sorted(s) && i < |s|
    ensures Removed(s, s[i].key) == RemoveAt(s, i)
  {
    if i > 0 {
      RemovedAt(s[1..], i - 1);
      assert RemoveAt(s, i) == [s[0]] + RemoveAt(s[1..], i - 1);
    } else {
      assert RemoveAt(s, 0) == s[1..];
    }
  }

  lemma {:induction false} RemovedNone<V>(s: seq<Entry<V>>, k: nat)
    requires Get(s, k).None?
    ensures Removed(s, k) == s
  {
    if s != [] {
      RemovedNone(s[1..], k);
    }
  }

  lemma UpdatedKeeps<V>(s: seq<Entry<V>>, k: nat, v: V)
    requires Sorted(s) && Get(s, k).Some?
    ensures Sorted(Updated(s, k, v)) && |Updated(s, k, v)| == |s|
    ensures forall j: nat :: Get(Updated(s, k, v), j) == if j == k then Some(v) else Get(s, j)
  {
    var i := GetFound(s, k);
    UpdatedAt(s, i, v);
    UpdateKeeps(s, i, v);
  }

  lemma RemovedKeeps<V>(s: seq<Entry<V>>, k: nat)
    requires Sorted(s)
    ensures Sorted(Removed(s, k)) && |Removed(s, k)| <= |s|
    ensures forall j: nat :: Get(Removed(s, k), j) == if j == k then None else Get(s, j)
    ensures Get(s, k).None? ==> Removed(s, k) == s
  {
    if Get(s, k).None? {
      RemovedNone(s, k);
    } else {
      var i := GetFound(s, k);
      RemovedAt(s, i);
      RemoveKeeps(s, i);
    }
  }

  /** bsearch_s by key. */
  method BinarySearch<V>(s: seq<Entry<V>>, k: nat) returns (r: Option<nat>)
    requires Sorted(s)
    ensures r.Some? ==> r.value < |s| && s[r.value].key == k && Get(s, k) == Some(s[r.value].value)
    ensures r.None? ==> Get(s, k).None?
  {
    var lo, hi := 0, |s|;
    while lo < hi
      invariant 0 <= lo <= hi <= |s|
      invariant forall i :: 0 <= i < lo ==> s[i].key < k
      invariant forall i :: hi <= i < |s| ==> k < s[i].key
    {
      var mid := (lo + hi) / 2;
      if s[mid].key == k {
        GetAt(s, mid);
        return Some(mid);
      }
      if s[mid].key < k { lo := mid + 1; } else { hi := mid; }
    }
    GetNone(s, k);
    return None;
  }
}
