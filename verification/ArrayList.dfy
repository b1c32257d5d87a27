/** TNktArrayList4Structs: a growable array of structures with sorted insertion.

`Contents` is what the list holds; lpItems has nSize places, of which the first nCount are in
use. Allocation may fail, which the caller of each method decides through `memory`.
*/
module ArrayList {
  import opened Bits
  import opened SortedList

  const GRANULARITY: nat := 32

  /** The size SetSize really allocates: rounded up, except on the first allocation. */
  function Granulated(n: nat, current: nat, force: bool): nat {
    if current > 0 && !force then (n + GRANULARITY - 1) / GRANULARITY * GRANULARITY else n
  }

  lemma GranulatedCovers(n: nat, current: nat, force: bool)
    ensures n <= Granulated(n, current, force) < n + 32
    ensures Granulated(n, current, force) == n || Granulated(n, current, force) % 32 == 0
  {
  }

  function Repeated<V>(n: nat, e: V): (s: seq<V>)
    ensures |s| == n && forall i :: 0 <= i < n ==> s[i] == e
  {
    seq(n, _ => e)
  }

  /** A memory after nktMemMove of n of its elements. */
  function MovedIn<V>(a: seq<V>, to: nat, from: nat, n: nat): (b: seq<V>)
    requires to + n <= |a| && from + n <= |a|
    ensures |b| == |a|
  {
    a[..to] + a[from..from + n] + a[to + n..]
  }

  /** A memory after elements were stored at a place. */
  function Stored<V>(a: seq<V>, at: nat, block: seq<V>): (b: seq<V>)
    requires at + |block| <= |a|
    ensures |b| == |a|
  {
    a[..at] + block + a[at + |block|..]
  }

  /** The first `count` elements after those from i on moved up and a block came in their place. */
  lemma OpenedIs<V>(a: seq<V>, i: nat, count: nat, block: seq<V>)
    requires i <= count && count + |block| <= |a|
    ensures Stored(MovedIn(a, i + |block|, i, count - i), i, block)[..count + |block|]
         == a[..count][..i] + block + a[..count][i..]
  {
  }

  /** The first elements after those from i + k on moved down. */
  lemma ClosedIs<V>(a: seq<V>, i: nat, count: nat, k: nat)
    requires i + k <= count <= |a|
    ensures MovedIn(a, i, i + k, count - k - i)[..count - k] == a[..count][..i] + a[..count][i + k..]
  {
  }

  class ArrayList<V> {
    const zero: Entry<V>  // what nktMemSet(..., 0, ...) leaves in a place
    var lpItems: array<Entry<V>>
    var nCount: nat

    ghost predicate Valid()
      reads this
    {
      nCount <= lpItems.Length
    }

    ghost function Contents(): seq<Entry<V>>
      reads this, lpItems
      requires Valid()
    {
      lpItems[..nCount]
    }

    constructor (zero: Entry<V>)
      ensures Valid() && Contents() == [] && fresh(lpItems) && lpItems.Length == 0
    {
      this.zero := zero;
      lpItems := new Entry<V>[0];
      nCount := 0;
    }

    /** Changes the number of places. It grows only, unless forced; forced below the count, it
        drops the elements that no longer fit. */
    method SetSize(size: nat, force: bool, memory: bool) returns (ok: bool)
      requires Valid()
      modifies this
      ensures Valid()
      ensures ok <==>
        (size <= old(lpItems.Length) && !force) || size == old(lpItems.Length) || size == 0 || memory
      ensures !ok ==> lpItems == old(lpItems) && nCount == old(nCount)
      ensures size == old(lpItems.Length) || (size < old(lpItems.Length) && !force) ==> lpItems == old(lpItems)
      ensures ok && lpItems != old(lpItems) ==>
        && fresh(lpItems)
        && (if old(lpItems.Length) > 0 && !force then lpItems.Length % 32 == 0 && size <= lpItems.Length < size + 32
            else lpItems.Length == size)
        && forall j :: nCount <= j < lpItems.Length ==> lpItems[j] == zero
      ensures ok ==> lpItems == old(lpItems) || fresh(lpItems)
      ensures ok && size >= old(nCount) ==> Contents() == old(Contents()) && lpItems.Length >= size
      ensures ok && size < old(nCount) ==>
        Contents() == if force then old(Contents())[..size] else old(Contents())
    {
      if size != lpItems.Length && (size > lpItems.Length || force) {
        if size > 0 && !memory {
          return false;
        }
        GranulatedCovers(size, lpItems.Length, force);
        var newSize := Granulated(size, lpItems.Length, force);
        var k := if nCount <= newSize then nCount else newSize;
        var newItems := new Entry<V>[newSize](i requires 0 <= i < newSize reads this, lpItems =>
          if i < k && i < lpItems.Length then lpItems[i] else zero);
        assert newItems[..k] == lpItems[..k];
        lpItems := newItems;
        if nCount > newSize {
          nCount := newSize;
        }
      }
      return true;
    }

    /** nktMemMove of n elements inside the array. */
    method MoveItems(to: nat, from: nat, n: nat)
      requires to + n <= lpItems.Length && from + n <= lpItems.Length
      modifies lpItems
      ensures lpItems[..] == MovedIn(old(lpItems[..]), to, from, n)
    {
      ghost var a := lpItems[..];
      forall i | 0 <= i < n {
        lpItems[to + i] := lpItems[from + i];
      }
      assert lpItems[..] == a[..to] + a[from..from + n] + a[to + n..];
    }

    /** lpItems[i] = elem */
    method SetElement(i: nat, elem: Entry<V>)
      requires i < lpItems.Length
      modifies lpItems
      ensures lpItems[..] == Stored(old(lpItems[..]), i, [elem])
    {
      lpItems[i] := elem;
    }

    /** An index past the end appends. */
    method InsertElementAt(elem: Entry<V>, index: nat, memory: bool) returns (ok: bool)
      requires Valid()
      modifies this, lpItems
      ensures Valid() && (lpItems == old(lpItems) || fresh(lpItems))
      ensures ok <==> memory || old(nCount) < old(lpItems.Length)
      ensures !ok ==> Contents() == old(Contents())
      ensures ok ==> var i := if index >= old(nCount) then old(nCount) else index;
        Contents() == old(Contents())[..i] + [elem] + old(Contents())[i..]
    {
      hide MovedIn, Stored;
      var i := if index >= nCount then nCount else index;
      ghost var was := Contents();
      ok := SetSize(nCount + 1, false, memory);
      if !ok {
        return;
      }
      ghost var a := lpItems[..];
      assert a[..nCount] == was;
      OpenedIs(a, i, nCount, [elem]);
      MoveItems(i + 1, i, nCount - i);
      SetElement(i, elem);
      nCount := nCount + 1;
      assert lpItems[..nCount] == lpItems[..][..nCount];
    }

    /** Into an ascending list, before the first entry whose key is not smaller. */
    method SortedInsert(elem: Entry<V>, memory: bool) returns (ok: bool)
      requires Valid() && Sorted(Contents())
      modifies this, lpItems
      ensures Valid() && (lpItems == old(lpItems) || fresh(lpItems))
      ensures ok <==> memory || old(nCount) < old(lpItems.Length)
      ensures !ok ==> Contents() == old(Contents())
      ensures ok ==> Contents() == InsertSorted(old(Contents()), elem)
    {
      hide InsertSorted, Position;
      ghost var was := Contents();
      InsertIsAtPosition(was, elem);
      if nCount == 0 {
        ok := InsertElementAt(elem, 0, memory);
        return;
      }
      var lo, hi := 1, nCount;
      while lo <= hi
        invariant 1 <= lo <= hi + 1 <= nCount + 1
        invariant forall i :: 0 <= i < lo - 1 ==> was[i].key < elem.key
        invariant forall i :: hi <= i < |was| ==> elem.key < was[i].key
      {
        var mid := (lo + hi) / 2;
        if elem.key == lpItems[mid - 1].key {
          PositionUnique(was, elem.key, mid - 1);
          ok := InsertElementAt(elem, mid - 1, memory);
          return;
        }
        if elem.key < lpItems[mid - 1].key { hi := mid - 1; } else { lo := mid + 1; }
      }
      PositionUnique(was, elem.key, lo - 1);
      ok := InsertElementAt(elem, lo - 1, memory);
    }

    /** Takes out up to n elements; the count is cut at the end of the list. A sum that wraps around
        is refused. */
    method RemoveElementAt(index: nat, n: nat) returns (ok: bool)
      requires Valid() && n < SIZE_LIMIT
      modifies this`nCount, lpItems
      ensures Valid()
      ensures ok == (index < old(nCount) && n > 0 && index + n < SIZE_LIMIT)
      ensures !ok ==> Contents() == old(Contents())
      ensures ok ==> var k := if index + n > old(nCount) then old(nCount) - index else n;
        Contents() == old(Contents())[..index] + old(Contents())[index + k..]
    {
      hide MovedIn;
      if index >= nCount || n == 0 || (index + n) % SIZE_LIMIT < index {
        return false;
      }
      ghost var was, a := Contents(), lpItems[..];
      assert a[..nCount] == was;
      ClosedIs(a, index, nCount, if index + n > nCount then nCount - index else n);
      var k := if index + n > nCount then nCount - index else n;
      nCount := nCount - k;
      MoveItems(index, index + k, nCount - index);
      assert lpItems[..nCount] == lpItems[..][..nCount];
      return true;
    }

    method RemoveAllElements()
      requires Valid()
      modifies this
      ensures Valid() && Contents() == [] && fresh(lpItems) && lpItems.Length == 0
    {
      lpItems := new Entry<V>[0];
      nCount := 0;
    }

    /** Opens a block of n zero elements; an index past the end means the end. */
    method ReserveBlock(n: nat, index: nat, memory: bool) returns (ok: bool)
      requires Valid()
      modifies this, lpItems
      ensures Valid() && (lpItems == old(lpItems) || fresh(lpItems))
      ensures ok <==> memory || old(nCount) + n <= old(lpItems.Length)
      ensures !ok ==> Contents() == old(Contents())
      ensures ok ==> var i := if index > old(nCount) then old(nCount) else index;
        Contents() == old(Contents())[..i] + Repeated(n, zero) + old(Contents())[i..]
    {
      hide MovedIn, Stored, Repeated;
      ghost var was := Contents();
      ok := SetSize(nCount + n, false, memory);
      if !ok {
        return;
      }
      var i := if index > nCount then nCount else index;
      ghost var a := lpItems[..];
      assert a[..nCount] == was;
      OpenedIs(a, i, nCount, Repeated(n, zero));
      OpenBlock(i, n);
      nCount := nCount + n;
      assert lpItems[..nCount] == lpItems[..][..nCount];
    }

    method OpenBlock(i: nat, n: nat)
      requires i <= nCount && nCount + n <= lpItems.Length
      modifies lpItems
      ensures lpItems[..] == Stored(MovedIn(old(lpItems[..]), i + n, i, nCount - i), i, Repeated(n, zero))
    {
      hide MovedIn, Stored;
      MoveItems(i + n, i, nCount - i);
      ClearItems(i, n);
    }

    /** nktMemSet of n elements to zero. */
    method ClearItems(at: nat, n: nat)
      requires at + n <= lpItems.Length
      modifies lpItems
      ensures lpItems[..] == Stored(old(lpItems[..]), at, Repeated(n, zero))
    {
      ghost var a := lpItems[..];
      forall j | at <= j < at + n {
        lpItems[j] := zero;
      }
      assert lpItems[..] == a[..at] + Repeated(n, zero) + a[at + n..];
    }
  }
}
