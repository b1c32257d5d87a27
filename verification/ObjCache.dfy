/** TNktDvEngObjCache: a hashed cache of counted references.

Each bucket is a list sorted by key (see SortedList and ArrayList). An entry carries the tick of
its last use; when a bucket is full, the entry with the smallest tick leaves. Objects are named
by numbers, and `refs` is every object's own reference counter. A 64-bit SIZE_T is modelled, so
a key reaches the modulus unchanged.
*/
module ObjCache {
  import opened Bits
  import opened Options
  import opened SortedList

  datatype Item = Item(nTick: nat, lpObj: nat)

  type Bucket = seq<Entry<Item>>

  datatype HResult = S_OK | E_POINTER | E_OUTOFMEMORY | NKT_DVERR_AlreadyExists

  datatype Cache = Cache(lists: seq<Bucket>, nTick: nat)

  // --- One bucket

  /** Where the smallest tick is; the first place if there are several. */
  function Oldest(s: Bucket): (i: nat)
    requires s != []
    ensures i < |s|
  {
    if |s| == 1 then 0
    else
      var i := Oldest(s[..|s| - 1]);
      if s[|s| - 1].value.nTick < s[i].value.nTick then |s| - 1 else i
  }

  predicate Evicts(s: Bucket, key: nat, max: nat) {
    Get(s, key).None? && |s| >= max && s != []
  }

  /** Add on a bucket; `memory` tells whether the list can grow. */
  function AddTo(s: Bucket, e: Entry<Item>, replace: bool, memory: bool, max: nat): (Bucket, HResult) {
    if Get(s, e.key).Some? then
      if replace then (Updated(s, e.key, e.value), S_OK) else (s, NKT_DVERR_AlreadyExists)
    else
      var t := if |s| >= max && s != [] then RemoveAt(s, Oldest(s)) else s;
      if memory then (InsertSorted(t, e), S_OK) else (t, E_OUTOFMEMORY)
  }

  /** How many entries a bucket may hold: a maximum of 0 still lets one in. */
  function Cap(max: nat): nat {
    if max == 0 then 1 else max
  }

  ghost predicate BucketOk(s: Bucket, max: nat) {
    Sorted(s) && |s| <= Cap(max)
  }

  lemma {:induction false} OldestIsFirstMinimum(s: Bucket)
    requires s != []
    ensures forall j :: 0 <= j < |s| ==> s[Oldest(s)].value.nTick <= s[j].value.nTick
    ensures forall j :: 0 <= j < Oldest(s) ==> s[Oldest(s)].value.nTick < s[j].value.nTick
    decreases |s|
  {
    if |s| > 1 {
      var r := s[..|s| - 1];
      OldestIsFirstMinimum(r);
      assert forall j :: 0 <= j < |r| ==> r[j] == s[j];
    }
  }

  /** After Add, a bucket maps the new key to the new object unless Add failed, has lost the key it
      evicted, if it evicted one, and maps every other key as before. */
  lemma AddToIsMapUpdate(s: Bucket, e: Entry<Item>, replace: bool, memory: bool, max: nat)
    requires BucketOk(s, max)
    ensures var (t, r) := AddTo(s, e, replace, memory, max);
      && BucketOk(t, max)
      && r != E_POINTER
      && (r == NKT_DVERR_AlreadyExists <==> Get(s, e.key).Some? && !replace)
      && (r == E_OUTOFMEMORY <==> Get(s, e.key).None? && !memory)
      && forall k: nat :: Get(t, k) ==
           if r == S_OK && k == e.key then Some(e.value)
           else if Get(s, e.key).None? && |s| >= max && s != [] && k == s[Oldest(s)].key then None
           else Get(s, k)
  {
    if Get(s, e.key).Some? {
      if replace { UpdatedKeeps(s, e.key, e.value); }
    } else {
      var t := s;
      if |s| >= max && s != [] {
        t := RemoveAt(s, Oldest(s));
        RemoveKeeps(s, Oldest(s));
        assert |t| == |s| - 1;
      }
      InsertKeeps(t, e);
    }
  }

  // --- Counting references

  /** The references a bucket holds to an object. */
  function Count(s: Bucket, o: nat): nat {
    if s == [] then 0 else (if s[0].value.lpObj == o then 1 else 0) + Count(s[1..], o)
  }

  function Total(lists: seq<Bucket>, o: nat): nat {
    if lists == [] then 0 else Count(lists[0], o) + Total(lists[1..], o)
  }

  function One(o: nat, p: nat): nat {
    if o == p then 1 else 0
  }

  lemma {:induction false} CountConcat(s: Bucket, t: Bucket, o: nat)
    ensures Count(s + t, o) == Count(s, o) + Count(t, o)
  {
    if s == [] {
      assert s + t == t;
    } else {
      CountConcat(s[1..], t, o);
      assert (s + t)[1..] == s[1..] + t;
    }
  }

  lemma CountRemoved(s: Bucket, i: nat, o: nat)
    requires i < |s|
    ensures Count(s, o) == Count(RemoveAt(s, i), o) + One(o, s[i].value.lpObj)
  {
    CountConcat(s[..i], s[i + 1..], o);
    CountConcat(s[..i], [s[i]] + s[i + 1..], o);
    CountConcat([s[i]], s[i + 1..], o);
    assert s == s[..i] + ([s[i]] + s[i + 1..]);
  }

  lemma CountInserted(s: Bucket, e: Entry<Item>, o: nat)
    ensures Count(InsertSorted(s, e), o) == Count(s, o) + One(o, e.value.lpObj)
  {
    var p := Position(s, e.key);
    InsertIsAtPosition(s, e);
    var r := InsertSorted(s, e);
    CountRemoved(r, p, o);
    assert RemoveAt(r, p) == s;
  }

  lemma CountReplaced(s: Bucket, i: nat, e: Entry<Item>, o: nat)
    requires i < |s|
    ensures Count(s[i := e], o) + One(o, s[i].value.lpObj) == Count(s, o) + One(o, e.value.lpObj)
  {
    CountRemoved(s, i, o);
    CountRemoved(s[i := e], i, o);
    assert RemoveAt(s[i := e], i) == RemoveAt(s, i);
  }

  lemma {:induction false} CountHas(s: Bucket, i: nat)
    requires i < |s|
    ensures Count(s, s[i].value.lpObj) > 0
  {
    CountRemoved(s, i, s[i].value.lpObj);
  }

  lemma {:induction false} TotalReplaced(lists: seq<Bucket>, i: nat, s: Bucket, o: nat)
    requires i < |lists|
    ensures Total(lists[i := s], o) + Count(lists[i], o) == Total(lists, o) + Count(s, o)
  {
    if i == 0 {
      assert lists[0 := s][1..] == lists[1..];
    } else {
      TotalReplaced(lists[1..], i - 1, s, o);
      assert lists[i := s][1..] == lists[1..][i - 1 := s];
    }
  }

  lemma {:induction false} TotalAtLeast(lists: seq<Bucket>, i: nat, o: nat)
    requires i < |lists|
    ensures Count(lists[i], o) <= Total(lists, o)
  {
    if i > 0 { TotalAtLeast(lists[1..], i - 1, o); }
  }

  function RefCount(refs: map<nat, nat>, o: nat): nat {
    if o in refs then refs[o] else 0
  }

  /** The references to an object that others than the cache hold. */
  ghost function External(refs: map<nat, nat>, lists: seq<Bucket>, o: nat): int {
    RefCount(refs, o) - Total(lists, o)
  }

  // --- The whole cache

  ghost predicate ListsOk(lists: seq<Bucket>, max: nat) {
    && |lists| > 0
    && (forall i :: 0 <= i < |lists| ==> BucketOk(lists[i], max))
    && forall i, j :: 0 <= i < |lists| && 0 <= j < |lists[i]| ==> lists[i][j].key % |lists| == i
  }

  ghost predicate CacheOk(c: Cache, max: nat) {
    ListsOk(c.lists, max) && c.nTick < DWORD_LIMIT
  }

  function Tick(n: nat): nat {
    (n + 1) % DWORD_LIMIT
  }

  function Find(lists: seq<Bucket>, key: nat): Option<Item>
    requires |lists| > 0
  {
    Get(lists[key % |lists|], key)
  }

  function Added(c: Cache, max: nat, key: nat, obj: Option<nat>, replace: bool, memory: bool): (Cache, HResult)
    requires |c.lists| > 0
  {
    if obj.None? then (c, E_POINTER)
    else
      var i := key % |c.lists|;
      var (s, r) := AddTo(c.lists[i], Entry(key, Item(Tick(c.nTick), obj.value)), replace, memory, max);
      (Cache(c.lists[i := s], Tick(c.nTick)), r)
  }

  function Fetched(c: Cache, key: nat): Cache
    requires |c.lists| > 0
  {
    var i := key % |c.lists|;
    match Find(c.lists, key)
    case None => c
    case Some(it) =>
      Cache(c.lists[i := Updated(c.lists[i], key, Item(Tick(c.nTick), it.lpObj))], Tick(c.nTick))
  }

  function Dropped(c: Cache, key: nat): Cache
    requires |c.lists| > 0
  {
    var i := key % |c.lists|;
    c.(lists := c.lists[i := Removed(c.lists[i], key)])
  }

  function Emptied(c: Cache): Cache {
    c.(lists := seq(|c.lists|, _ => []))
  }

  lemma BucketReplaced(lists: seq<Bucket>, max: nat, i: nat, s: Bucket)
    requires ListsOk(lists, max) && i < |lists| && BucketOk(s, max)
    requires forall k: nat :: Get(s, k).Some? && Get(lists[i], k).None? ==> k % |lists| == i
    ensures ListsOk(lists[i := s], max)
  {
    forall j | 0 <= j < |s| ensures s[j].key % |lists| == i {
      GetAt(s, j);
      var k := s[j].key;
      if Get(lists[i], k).Some? { var x := GetFound(lists[i], k); }
    }
  }

  lemma ListOk(lists: seq<Bucket>, max: nat, key: nat)
    requires ListsOk(lists, max)
    ensures |lists| > 0 && BucketOk(lists[key % |lists|], max)
  {
  }

  lemma EvictedIsHere(lists: seq<Bucket>, max: nat, key: nat)
    requires ListsOk(lists, max) && Evicts(lists[key % |lists|], key, max)
    ensures var s := lists[key % |lists|]; s[Oldest(s)].key % |lists| == key % |lists|
  {
    hide Oldest, Get;
  }

  lemma BucketSorted(s: Bucket, max: nat)
    requires BucketOk(s, max)
    ensures Sorted(s)
  {
  }

  /** What a cache maps keys to after Add: a map update, less the key that was evicted. */
  lemma AddedIsMapUpdate(c: Cache, max: nat, key: nat, obj: Option<nat>, replace: bool, memory: bool)
    requires CacheOk(c, max)
    ensures CacheOk(Added(c, max, key, obj, replace, memory).0, max)
    ensures |Added(c, max, key, obj, replace, memory).0.lists| == |c.lists|
    ensures var r := Added(c, max, key, obj, replace, memory).1;
      && (r == E_POINTER <==> obj.None?)
      && (r == NKT_DVERR_AlreadyExists <==> obj.Some? && Find(c.lists, key).Some? && !replace)
      && (r == E_OUTOFMEMORY <==> obj.Some? && Find(c.lists, key).None? && !memory)
    ensures var (d, r) := Added(c, max, key, obj, replace, memory);
      var s := c.lists[key % |c.lists|];
      forall k: nat :: Find(d.lists, k) ==
        if r == S_OK && k == key then Some(Item(Tick(c.nTick), obj.value))
        else if obj.Some? && Find(c.lists, key).None? && |s| >= max && s != [] && k == s[Oldest(s)].key then None
        else Find(c.lists, k)
  {
    hide AddTo, BucketOk, ListsOk, Get, Sorted, Oldest;
    ListOk(c.lists, max, key);
    if obj.Some? {
      var i := key % |c.lists|;
      var e := Entry(key, Item(Tick(c.nTick), obj.value));
      AddToIsMapUpdate(c.lists[i], e, replace, memory, max);
      BucketReplaced(c.lists, max, i, AddTo(c.lists[i], e, replace, memory, max).0);
      if Evicts(c.lists[i], key, max) { EvictedIsHere(c.lists, max, key); }
    }
  }

  /** Get leaves every key with its object; only the tick of the one it finds changes. */
  lemma FetchedKeepsMap(c: Cache, max: nat, key: nat)
    requires CacheOk(c, max)
    ensures var d := Fetched(c, key);
      && CacheOk(d, max) && |d.lists| == |c.lists|
      && forall k: nat :: Find(d.lists, k) ==
           if k == key && Find(c.lists, k).Some? then Some(Item(Tick(c.nTick), Find(c.lists, k).value.lpObj))
           else Find(c.lists, k)
  {
    if Find(c.lists, key).Some? {
      var i := key % |c.lists|;
      var it := Item(Tick(c.nTick), Find(c.lists, key).value.lpObj);
      UpdatedKeeps(c.lists[i], key, it);
      BucketReplaced(c.lists, max, i, Updated(c.lists[i], key, it));
    }
  }

  lemma DroppedRemovesKey(c: Cache, max: nat, key: nat)
    requires CacheOk(c, max)
    ensures var d := Dropped(c, key);
      && CacheOk(d, max) && |d.lists| == |c.lists|
      && forall k: nat :: Find(d.lists, k) == if k == key then None else Find(c.lists, k)
  {
    var i := key % |c.lists|;
    RemovedKeeps(c.lists[i], key);
    BucketReplaced(c.lists, max, i, Removed(c.lists[i], key));
  }

  // --- The class

  class TNktDvEngObjCache {
    const nMaxCacheSize: nat
    var nTick: nat
    var cLists: seq<Bucket>
    var refs: map<nat, nat>

    ghost function State(): Cache
      reads this
    {
      Cache(cLists, nTick)
    }

    /** Every stored entry is backed by a reference of its own. */
    ghost predicate Valid()
      reads this
    {
      CacheOk(State(), nMaxCacheSize) && forall o: nat :: External(refs, cLists, o) >= 0
    }

    constructor (nHashSize: nat, nMaxCacheSize: nat, refs: map<nat, nat>)
      requires nHashSize > 0
      ensures Valid() && cLists == seq(nHashSize, _ => []) && this.refs == refs
      ensures this.nMaxCacheSize == nMaxCacheSize
    {
      this.nMaxCacheSize, nTick, cLists, this.refs := nMaxCacheSize, 0, seq(nHashSize, _ => []), refs;
      new;
      forall o: nat ensures Total(cLists, o) == 0 { TotalOfNothing(cLists, o); }
    }

    method AddRef(o: nat)
      modifies this`refs
      ensures forall p: nat :: RefCount(refs, p) == RefCount(old(refs), p) + One(p, o)
    {
      refs := refs[o := RefCount(refs, o) + 1];
    }

    /** An object is never released more often than it was referenced. */
    method Release(o: nat)
      requires RefCount(refs, o) > 0
      modifies this`refs
      ensures forall p: nat :: RefCount(refs, p) + One(p, o) == RefCount(old(refs), p)
    {
      refs := refs[o := RefCount(refs, o) - 1];
    }

    /** The scan of RemoveExtraItem for the entry to give up. */
    static method FindOldest(s: Bucket) returns (nIdx: nat)
      requires s != []
      ensures nIdx == Oldest(s)
    {
      nIdx := 0;
      var nMinTick := s[0].value.nTick;
      var i := 1;
      while i < |s|
        invariant 1 <= i <= |s|
        invariant nIdx == Oldest(s[..i]) && nMinTick == s[nIdx].value.nTick
      {
        assert s[..i + 1][..i] == s[..i];
        if s[i].value.nTick < nMinTick {
          nMinTick, nIdx := s[i].value.nTick, i;
        }
        i := i + 1;
      }
      assert s[..i] == s;
    }

    /** Changes one bucket. */
    method SetList(i: nat, s: Bucket)
      requires i < |cLists|
      modifies this`cLists
      ensures cLists == old(cLists)[i := s]
      ensures forall o: nat :: Total(cLists, o) + Count(old(cLists)[i], o) == Total(old(cLists), o) + Count(s, o)
    {
      forall o: nat { TotalReplaced(cLists, i, s, o); }
      cLists := cLists[i := s];
    }

    method RemoveExtraItem(i: nat)
      requires i < |cLists| && forall o: nat :: External(refs, cLists, o) >= 0
      modifies this`cLists, this`refs
      ensures cLists == old(cLists)[i := if old(cLists)[i] == [] then []
          else RemoveAt(old(cLists)[i], Oldest(old(cLists)[i]))]
      ensures forall o: nat :: External(refs, cLists, o) == old(External(refs, cLists, o))
    {
      if |cLists[i]| > 0 {
        var s := cLists[i];
        var nIdx := FindOldest(s);
        CountHas(s, nIdx);
        TotalAtLeast(cLists, i, s[nIdx].value.lpObj);
        assert External(refs, cLists, s[nIdx].value.lpObj) >= 0;
        Release(s[nIdx].value.lpObj);
        forall o: nat { CountRemoved(s, nIdx, o); }
        SetList(i, RemoveAt(s, nIdx));
      }
    }

    method Add(nKey: nat, lpObj: Option<nat>, bReplace: bool, memory: bool) returns (hRes: HResult)
      requires Valid()
      modifies this`nTick, this`cLists, this`refs
      ensures Valid() && (State(), hRes) == Added(old(State()), nMaxCacheSize, nKey, lpObj, bReplace, memory)
      ensures forall o: nat :: External(refs, cLists, o) == old(External(refs, cLists, o))
    {
      hide Total, Count, ListsOk, BucketOk, Sorted, SortedList.Get, Updated, InsertSorted, Oldest, RemoveAt, RefCount;
      ghost var was := State();
      AddedIsMapUpdate(was, nMaxCacheSize, nKey, lpObj, bReplace, memory);
      ListOk(cLists, nMaxCacheSize, nKey);
      if lpObj.None? {
        return E_POINTER;
      }
      AddRef(lpObj.value);
      assert forall o: nat :: External(refs, cLists, o) == old(External(refs, cLists, o)) + One(o, lpObj.value);
      var i := nKey % |cLists|;
      nTick := (nTick + 1) % DWORD_LIMIT;
      var e := Entry(nKey, Item(nTick, lpObj.value));
      BucketSorted(cLists[i], nMaxCacheSize);
      var nObjIdx := BinarySearch(cLists[i], nKey);
      if nObjIdx.Some? {
        if !bReplace {
          assert cLists[i := cLists[i]] == cLists;
          Release(lpObj.value);
          return NKT_DVERR_AlreadyExists;
        }
        Replace(i, nObjIdx.value, e);
      } else {
        var inserted := InsertNew(i, e, memory);
        if !inserted {
          assert External(refs, cLists, lpObj.value) == old(External(refs, cLists, lpObj.value)) + 1;
          Release(lpObj.value);
          return E_OUTOFMEMORY;
        }
      }
      AddRef(lpObj.value);
      Release(lpObj.value);
      hRes := S_OK;
      assert (State(), hRes) == Added(was, nMaxCacheSize, nKey, lpObj, bReplace, memory);
      assert CacheOk(State(), nMaxCacheSize);
      assert forall o: nat :: External(refs, cLists, o) == old(External(refs, cLists, o));
    }

    /** Evicts if the bucket is full and inserts, without the entry's reference yet. */
    method InsertNew(i: nat, e: Entry<Item>, memory: bool) returns (inserted: bool)
      requires i < |cLists| && SortedList.Get(cLists[i], e.key).None?
      requires forall o: nat :: External(refs, cLists, o) >= 0
      modifies this`cLists, this`refs
      ensures inserted == memory
      ensures var (t, r) := AddTo(old(cLists)[i], e, false, memory, nMaxCacheSize);
        cLists == old(cLists)[i := t] && (inserted <==> r == S_OK)
      ensures forall o: nat ::
        External(refs, cLists, o) == old(External(refs, cLists, o)) - if inserted then One(o, e.value.lpObj) else 0
    {
      hide Total, Count, Sorted, SortedList.Get, Updated, InsertSorted, Oldest, RemoveAt, RefCount;
      ghost var s := cLists[i];
      if |cLists[i]| >= nMaxCacheSize {
        RemoveExtraItem(i);
      }
      ghost var t := if |s| >= nMaxCacheSize && s != [] then RemoveAt(s, Oldest(s)) else s;
      assert cLists == old(cLists)[i := t];
      if memory {
        forall o: nat { CountInserted(cLists[i], e, o); }
        SetList(i, InsertSorted(cLists[i], e));
        assert cLists == old(cLists)[i := InsertSorted(t, e)];
      }
      inserted := memory;
    }

    /** Releases an entry's object and stores another in its place, without its reference yet. */
    method Replace(i: nat, k: nat, e: Entry<Item>)
      requires i < |cLists| && Sorted(cLists[i]) && k < |cLists[i]| && cLists[i][k].key == e.key
      requires forall o: nat :: External(refs, cLists, o) >= 0
      modifies this`cLists, this`refs
      ensures cLists == old(cLists)[i := Updated(old(cLists)[i], e.key, e.value)]
      ensures forall o: nat :: External(refs, cLists, o) == old(External(refs, cLists, o)) - One(o, e.value.lpObj)
    {
      var s := cLists[i];
      CountHas(s, k);
      TotalAtLeast(cLists, i, s[k].value.lpObj);
      assert External(refs, cLists, s[k].value.lpObj) >= 0;
      Release(s[k].value.lpObj);
      forall o: nat { CountReplaced(s, k, e, o); }
      UpdatedAt(s, k, e.value);
      SetList(i, s[k := e]);
    }

    method Remove(nKey: nat)
      requires Valid()
      modifies this`cLists, this`refs
      ensures Valid() && State() == Dropped(old(State()), nKey)
      ensures forall o: nat :: External(refs, cLists, o) == old(External(refs, cLists, o))
    {
      hide Total, ListsOk, BucketOk, Sorted, SortedList.Get, RefCount;
      DroppedRemovesKey(State(), nMaxCacheSize, nKey);
      ListOk(cLists, nMaxCacheSize, nKey);
      var i := nKey % |cLists|;
      var s := cLists[i];
      BucketSorted(s, nMaxCacheSize);
      var nObjIdx := BinarySearch(s, nKey);
      if nObjIdx.Some? {
        var k := nObjIdx.value;
        CountHas(s, k);
        TotalAtLeast(cLists, i, s[k].value.lpObj);
        assert External(refs, cLists, s[k].value.lpObj) >= 0;
        Release(s[k].value.lpObj);
        RemoveElement(i, k);
      } else {
        RemovedNone(s, nKey);
        assert cLists[i := s] == cLists;
      }
      assert State() == Dropped(old(State()), nKey);
      assert CacheOk(State(), nMaxCacheSize);
      assert forall o: nat :: External(refs, cLists, o) == old(External(refs, cLists, o));
    }

    /** Remove that hands the cache's reference over to the caller. */
    method RemoveTransfer(nKey: nat) returns (lpObj: Option<nat>)
      requires Valid()
      modifies this`cLists
      ensures Valid() && State() == Dropped(old(State()), nKey)
      ensures lpObj == match Find(old(cLists), nKey) case None => None case Some(it) => Some(it.lpObj)
      ensures forall o: nat ::
        External(refs, cLists, o) == old(External(refs, cLists, o)) + if lpObj == Some(o) then 1 else 0
    {
      hide Total, ListsOk, BucketOk, Sorted, SortedList.Get, RefCount;
      DroppedRemovesKey(State(), nMaxCacheSize, nKey);
      ListOk(cLists, nMaxCacheSize, nKey);
      lpObj := None;
      var i := nKey % |cLists|;
      var s := cLists[i];
      BucketSorted(s, nMaxCacheSize);
      var nObjIdx := BinarySearch(s, nKey);
      if nObjIdx.Some? {
        lpObj := Some(s[nObjIdx.value].value.lpObj);
        RemoveElement(i, nObjIdx.value);
      } else {
        RemovedNone(s, nKey);
        assert cLists[i := s] == cLists;
      }
    }

    method RemoveElement(i: nat, k: nat)
      requires i < |cLists| && Sorted(cLists[i]) && k < |cLists[i]|
      modifies this`cLists
      ensures cLists == old(cLists)[i := Removed(old(cLists)[i], old(cLists)[i][k].key)]
      ensures forall o: nat ::
        External(refs, cLists, o) == old(External(refs, cLists, o)) + One(o, old(cLists)[i][k].value.lpObj)
    {
      var s := cLists[i];
      forall o: nat { CountRemoved(s, k, o); }
      RemovedAt(s, k);
      SetList(i, RemoveAt(s, k));
    }

    /** The object comes with a reference for the caller. */
    method Get(nKey: nat) returns (lpObj: Option<nat>)
      requires Valid()
      modifies this`nTick, this`cLists, this`refs
      ensures Valid() && State() == Fetched(old(State()), nKey)
      ensures lpObj == match Find(old(cLists), nKey) case None => None case Some(it) => Some(it.lpObj)
      ensures forall o: nat ::
        External(refs, cLists, o) == old(External(refs, cLists, o)) + if lpObj == Some(o) then 1 else 0
    {
      hide Total, Count, ListsOk, BucketOk, Sorted, SortedList.Get, RefCount, Updated;
      FetchedKeepsMap(State(), nMaxCacheSize, nKey);
      ListOk(cLists, nMaxCacheSize, nKey);
      lpObj := None;
      var i := nKey % |cLists|;
      var s := cLists[i];
      BucketSorted(s, nMaxCacheSize);
      var nObjIdx := BinarySearch(s, nKey);
      if nObjIdx.Some? {
        var k := nObjIdx.value;
        AddRef(s[k].value.lpObj);
        nTick := (nTick + 1) % DWORD_LIMIT;
        var e := Entry(nKey, Item(nTick, s[k].value.lpObj));
        UpdatedAt(s, k, e.value);
        forall o: nat { CountReplaced(s, k, e, o); }
        SetList(i, s[k := e]);
        lpObj := Some(s[k].value.lpObj);
      }
      assert State() == Fetched(old(State()), nKey);
      assert CacheOk(State(), nMaxCacheSize);
      assert forall o: nat ::
        External(refs, cLists, o) == old(External(refs, cLists, o)) + if lpObj == Some(o) then 1 else 0;
    }

    method RemoveAll()
      requires Valid()
      modifies this`cLists, this`refs
      ensures Valid() && State() == Emptied(old(State()))
      ensures forall o: nat :: External(refs, cLists, o) == old(External(refs, cLists, o))
    {
      var nListIndex := 0;
      ghost var was := cLists;
      while nListIndex < |cLists|
        invariant 0 <= nListIndex <= |cLists| == |was|
        invariant forall j :: 0 <= j < |was| ==> cLists[j] == if j < nListIndex then [] else was[j]
        invariant forall o: nat :: External(refs, cLists, o) == old(External(refs, cLists, o))
      {
        ReleaseList(nListIndex);
        nListIndex := nListIndex + 1;
      }
    }

    method ReleaseList(nListIndex: nat)
      requires nListIndex < |cLists| && forall o: nat :: External(refs, cLists, o) >= 0
      modifies this`cLists, this`refs
      ensures cLists == old(cLists)[nListIndex := []]
      ensures forall o: nat :: External(refs, cLists, o) == old(External(refs, cLists, o))
    {
      var s := cLists[nListIndex];
      var i := 0;
      while i < |s|
        invariant 0 <= i <= |s| && cLists == old(cLists)
        invariant forall o: nat :: RefCount(refs, o) + Count(s, o) == RefCount(old(refs), o) + Count(s[i..], o)
      {
        var o := s[i].value.lpObj;
        CountHas(s[i..], 0);
        TotalAtLeast(cLists, nListIndex, o);
        assert External(old(refs), cLists, o) >= 0;
        assert RefCount(refs, o) + Count(s, o) == RefCount(old(refs), o) + Count(s[i..], o);
        Release(o);
        assert s[i..][1..] == s[i + 1..];
        i := i + 1;
      }
      SetList(nListIndex, []);
    }
  }

  lemma {:induction false} TotalOfNothing(lists: seq<Bucket>, o: nat)
    requires forall i :: 0 <= i < |lists| ==> lists[i] == []
    ensures Total(lists, o) == 0
  {
    if lists != [] { TotalOfNothing(lists[1..], o); }
  }

  // --- Whole runs

  datatype Op =
    | OpAdd(key: nat, obj: Option<nat>, replace: bool, memory: bool)
    | OpGet(key: nat)
    | OpDrop(key: nat)
    | OpClear

  function Step(c: Cache, max: nat, op: Op): (d: Cache)
    requires |c.lists| > 0
    ensures |d.lists| == |c.lists|
  {
    match op
    case OpAdd(key, obj, replace, memory) => Added(c, max, key, obj, replace, memory).0
    case OpGet(key) => Fetched(c, key)
    case OpDrop(key) => Dropped(c, key)
    case OpClear => Emptied(c)
  }

  function Run(n: nat, max: nat, ops: seq<Op>): (c: Cache)
    requires n > 0
    ensures |c.lists| == n
  {
    if ops == [] then Cache(seq(n, _ => []), 0) else Step(Run(n, max, ops[..|ops| - 1]), max, ops[|ops| - 1])
  }

  /** Whether an operation stores or fetches a key. */
  predicate Uses(c: Cache, max: nat, op: Op, key: nat)
    requires |c.lists| > 0
  {
    match op
    case OpAdd(k, obj, replace, memory) => k == key && Added(c, max, k, obj, replace, memory).1 == S_OK
    case OpGet(k) => k == key && Find(c.lists, k).Some?
    case OpDrop(_) => false
    case OpClear => false
  }

  /** The number of the last operation that stored or fetched a key. */
  function LastUse(n: nat, max: nat, ops: seq<Op>, key: nat): nat
    requires n > 0
  {
    if ops == [] then 0
    else
      var before := ops[..|ops| - 1];
      if Uses(Run(n, max, before), max, ops[|ops| - 1], key) then |ops| else LastUse(n, max, before, key)
  }

  /** The object of the last successful Add under a key. */
  function LastAdded(n: nat, max: nat, ops: seq<Op>, key: nat): Option<nat>
    requires n > 0
  {
    if ops == [] then None
    else
      var before := ops[..|ops| - 1];
      var op := ops[|ops| - 1];
      if op.OpAdd? && Uses(Run(n, max, before), max, op, key) then op.obj else LastAdded(n, max, before, key)
  }

  /** One operation: the key it uses gets the next tick; every other key keeps its entry or loses it. */
  lemma StepIs(c: Cache, max: nat, op: Op)
    requires CacheOk(c, max)
    ensures var d := Step(c, max, op);
      && CacheOk(d, max)
      && (d.nTick == c.nTick || d.nTick == Tick(c.nTick))
      && forall k: nat ::
           if Uses(c, max, op, k) then
             && d.nTick == Tick(c.nTick)
             && Find(d.lists, k).Some? && Find(d.lists, k).value.nTick == Tick(c.nTick)
             && Some(Find(d.lists, k).value.lpObj) == (if op.OpAdd? then op.obj else Some(Find(c.lists, k).value.lpObj))
             && (!op.OpAdd? ==> Find(c.lists, k).Some?)
           else Find(d.lists, k).None? || Find(d.lists, k) == Find(c.lists, k)
  {
    hide Added, Fetched, Dropped, ListsOk, Find;
    ListOk(c.lists, max, 0);
    match op
    case OpAdd(key, obj, replace, memory) =>
      AddedIsMapUpdate(c, max, key, obj, replace, memory);
      AddedTick(c, max, key, obj, replace, memory);
    case OpGet(key) =>
      FetchedKeepsMap(c, max, key);
      FetchedTick(c, key);
    case OpDrop(key) =>
      DroppedRemovesKey(c, max, key);
      DroppedTick(c, key);
    case OpClear => EmptiedIsEmpty(c, max);
  }

  lemma AddedTick(c: Cache, max: nat, key: nat, obj: Option<nat>, replace: bool, memory: bool)
    requires |c.lists| > 0
    ensures Added(c, max, key, obj, replace, memory).0.nTick == if obj.Some? then Tick(c.nTick) else c.nTick
  {
  }

  lemma FetchedTick(c: Cache, key: nat)
    requires |c.lists| > 0
    ensures Fetched(c, key).nTick == if Find(c.lists, key).Some? then Tick(c.nTick) else c.nTick
  {
  }

  lemma DroppedTick(c: Cache, key: nat)
    requires |c.lists| > 0
    ensures Dropped(c, key).nTick == c.nTick
  {
  }

  lemma EmptiedIsEmpty(c: Cache, max: nat)
    requires CacheOk(c, max)
    ensures CacheOk(Emptied(c), max) && forall k: nat :: Find(Emptied(c).lists, k) == None
  {
  }

  /** Before the tick can wrap around, ticks order the stored keys by their last use. */
  lemma {:induction false} TicksOrderUses(n: nat, max: nat, ops: seq<Op>)
    requires n > 0 && |ops| < DWORD_LIMIT
    ensures var c := Run(n, max, ops);
      && CacheOk(c, max) && c.nTick <= |ops|
      && (forall k: nat :: LastUse(n, max, ops, k) <= |ops|)
      && (forall k: nat :: Find(c.lists, k).Some? ==> Find(c.lists, k).value.nTick <= c.nTick)
      && forall j: nat, k: nat :: j != k && Find(c.lists, j).Some? && Find(c.lists, k).Some? ==>
           (Find(c.lists, j).value.nTick < Find(c.lists, k).value.nTick <==>
            LastUse(n, max, ops, j) < LastUse(n, max, ops, k))
    decreases |ops|
  {
    hide Step, Uses, Find, CacheOk;
    if ops == [] {
      EmptyOk(n, max);
    } else {
      var before := ops[..|ops| - 1];
      TicksOrderUses(n, max, before);
      var c, op := Run(n, max, before), ops[|ops| - 1];
      StepIs(c, max, op);
      UsesOne(c, max, op);
    }
  }

  lemma UsesOne(c: Cache, max: nat, op: Op)
    requires |c.lists| > 0
    ensures forall j: nat, k: nat :: Uses(c, max, op, j) && Uses(c, max, op, k) ==> j == k
  {
    hide Added, Find;
  }

  lemma EmptyOk(n: nat, max: nat)
    requires n > 0
    ensures CacheOk(Run(n, max, []), max) && forall k: nat :: Find(Run(n, max, []).lists, k) == None
  {
  }

  /** In every run, a bucket that is full when a new key arrives gives up the entry that was least
      recently stored or fetched, and no other. */
  lemma EvictsLeastRecentlyUsed(n: nat, max: nat, ops: seq<Op>, key: nat, obj: nat, replace: bool, memory: bool)
    requires n > 0 && |ops| < DWORD_LIMIT
    requires Evicts(Run(n, max, ops).lists[key % n], key, max)
    ensures var s := Run(n, max, ops).lists[key % n];
      var d := Added(Run(n, max, ops), max, key, Some(obj), replace, memory).0;
      var v := s[Oldest(s)].key;
      && Find(d.lists, v) == None
      && forall j :: 0 <= j < |s| && s[j].key != v ==>
           && LastUse(n, max, ops, v) < LastUse(n, max, ops, s[j].key)
           && Find(d.lists, s[j].key) == Some(s[j].value)
  {
    hide Added;
    TicksOrderUses(n, max, ops);
    var c := Run(n, max, ops);
    var s := c.lists[key % n];
    AddedIsMapUpdate(c, max, key, Some(obj), replace, memory);
    OldestIsFirstMinimum(s);
    FindInBucket(c, max, key % n);
    GetNone(s, key);
    var v := Oldest(s);
    forall j | 0 <= j < |s| && s[j].key != s[v].key
      ensures LastUse(n, max, ops, s[v].key) < LastUse(n, max, ops, s[j].key)
    {
      UsesDiffer(n, max, ops, s[v].key, s[j].key);
    }
  }

  lemma FindInBucket(c: Cache, max: nat, i: nat)
    requires CacheOk(c, max) && i < |c.lists|
    ensures forall j :: 0 <= j < |c.lists[i]| ==> Find(c.lists, c.lists[i][j].key) == Some(c.lists[i][j].value)
  {
    forall j | 0 <= j < |c.lists[i]| ensures Find(c.lists, c.lists[i][j].key) == Some(c.lists[i][j].value) {
      GetAt(c.lists[i], j);
    }
  }

  /** Stored keys were all used, and by different operations. */
  lemma {:induction false} UsesDiffer(n: nat, max: nat, ops: seq<Op>, j: nat, k: nat)
    requires n > 0 && j != k
    requires Find(Run(n, max, ops).lists, j).Some? && Find(Run(n, max, ops).lists, k).Some?
    ensures LastUse(n, max, ops, j) != LastUse(n, max, ops, k)
    decreases |ops|
  {
    hide Step, Uses, Find, CacheOk;
    if ops == [] {
      EmptyOk(n, max);
    } else {
      var before := ops[..|ops| - 1];
      var c, op := Run(n, max, before), ops[|ops| - 1];
      RunOk(n, max, before);
      StepIs(c, max, op);
      UsesOne(c, max, op);
      LastUseBound(n, max, before, j);
      LastUseBound(n, max, before, k);
      if Uses(c, max, op, j) {
        UsedBefore(n, max, before, k);
      } else if Uses(c, max, op, k) {
        UsedBefore(n, max, before, j);
      } else {
        UsesDiffer(n, max, before, j, k);
      }
    }
  }

  lemma {:induction false} UsedBefore(n: nat, max: nat, ops: seq<Op>, k: nat)
    requires n > 0 && Find(Run(n, max, ops).lists, k).Some?
    ensures 0 < LastUse(n, max, ops, k)
    decreases |ops|
  {
    hide Step, Uses, Find, CacheOk;
    if ops == [] {
      EmptyOk(n, max);
    } else {
      var before := ops[..|ops| - 1];
      RunOk(n, max, before);
      StepIs(Run(n, max, before), max, ops[|ops| - 1]);
      if !Uses(Run(n, max, before), max, ops[|ops| - 1], k) { UsedBefore(n, max, before, k); }
    }
  }

  lemma {:induction false} LastUseBound(n: nat, max: nat, ops: seq<Op>, k: nat)
    requires n > 0
    ensures LastUse(n, max, ops, k) <= |ops|
    decreases |ops|
  {
    hide Uses, Run;
    if ops != [] { LastUseBound(n, max, ops[..|ops| - 1], k); }
  }

  /** In every run, every bucket stays strictly sorted by key, within its bound, and holds only the
      keys that hash to it. */
  lemma {:induction false} RunOk(n: nat, max: nat, ops: seq<Op>)
    requires n > 0
    ensures CacheOk(Run(n, max, ops), max)
    ensures var lists := Run(n, max, ops).lists;
      && |lists| == n
      && (forall i :: 0 <= i < n ==> |lists[i]| <= if max == 0 then 1 else max)
      && (forall i, j :: 0 <= i < n && 0 <= j < |lists[i]| ==> lists[i][j].key % n == i)
      && (forall i, j, k :: 0 <= i < n && 0 <= j < k < |lists[i]| ==> lists[i][j].key < lists[i][k].key)
    decreases |ops|
  {
    hide Step, Uses, Find, CacheOk;
    RunShape(n, max, ops);
    CacheShape(Run(n, max, ops), max);
  }

  lemma CacheShape(c: Cache, max: nat)
    requires CacheOk(c, max)
    ensures var lists, n := c.lists, |c.lists|;
      && (forall i :: 0 <= i < n ==> |lists[i]| <= if max == 0 then 1 else max)
      && (forall i, j :: 0 <= i < n && 0 <= j < |lists[i]| ==> lists[i][j].key % n == i)
      && (forall i, j, k :: 0 <= i < n && 0 <= j < k < |lists[i]| ==> lists[i][j].key < lists[i][k].key)
  {
  }

  lemma {:induction false} RunShape(n: nat, max: nat, ops: seq<Op>)
    requires n > 0
    ensures CacheOk(Run(n, max, ops), max)
    decreases |ops|
  {
    hide Step, Uses, Find, CacheOk;
    if ops == [] {
      EmptyOk(n, max);
    } else {
      RunShape(n, max, ops[..|ops| - 1]);
      StepIs(Run(n, max, ops[..|ops| - 1]), max, ops[|ops| - 1]);
    }
  }

  /** In every run, a stored key has the object it was last given. */
  lemma {:induction false} StoredIsLastAdded(n: nat, max: nat, ops: seq<Op>, key: nat)
    requires n > 0
    ensures CacheOk(Run(n, max, ops), max)
    ensures var f := Find(Run(n, max, ops).lists, key); f.Some? ==> LastAdded(n, max, ops, key) == Some(f.value.lpObj)
    decreases |ops|
  {
    hide Step, Uses, Find, CacheOk;
    if ops == [] {
      EmptyOk(n, max);
    } else {
      var before := ops[..|ops| - 1];
      StoredIsLastAdded(n, max, before, key);
      StepIs(Run(n, max, before), max, ops[|ops| - 1]);
    }
  }
}
