/** TNktMemMgrObjPool: a pool of equal items that keeps freed ones for a while.

Freed items form a doubly linked list, newest first, that is trimmed by age from its tail on
every dwCheckFreq-th release. The clock is GetTickCount; `now` is the same clock without its
32 bit limit.
*/
module ObjectPool {
  import opened Bits

  class Item {
    var lpNext: Item?
    var lpPrev: Item?
    var dwLastInUseTime: nat
    ghost var time: nat  // dwLastInUseTime without the limit

    constructor ()
      ensures fresh(this)
    {
      lpNext, lpPrev, dwLastInUseTime, time := null, null, 0, 0;
    }
  }

  /** The age in 32 bits, as the two branches of IntMemTrimSpace compute it. */
  function Age(dwTime: nat, stamp: nat): int {
    if dwTime >= stamp then dwTime - stamp else DWORD_LIMIT - 1 - stamp + dwTime + 1
  }

  /** It is the true age, in 32 bits. */
  lemma AgeIsDifference(now: nat, time: nat)
    requires time <= now
    ensures Age(now % DWORD_LIMIT, time % DWORD_LIMIT) == (now - time) % DWORD_LIMIT
  {
    var q, p := now / DWORD_LIMIT, time / DWORD_LIMIT;
    var r, t := now % DWORD_LIMIT, time % DWORD_LIMIT;
    assert now - time == (q - p) * DWORD_LIMIT + (r - t);
    assert now - time == (q - p - 1) * DWORD_LIMIT + (DWORD_LIMIT + r - t);
  }

  /** How many of the items with these stamps, newest first, a trim keeps. */
  function Kept(stamps: seq<nat>, dwTime: nat, dwMaxAge: nat): (k: nat)
    ensures k <= |stamps|
  {
    if stamps == [] || Age(dwTime, stamps[|stamps| - 1]) < dwMaxAge then |stamps|
    else Kept(stamps[..|stamps| - 1], dwTime, dwMaxAge)
  }

  /** The last one kept is young, and all behind it are not. */
  lemma {:induction false} KeptUpToTheLastYoung(stamps: seq<nat>, dwTime: nat, dwMaxAge: nat)
    ensures var k := Kept(stamps, dwTime, dwMaxAge);
      && (k > 0 ==> Age(dwTime, stamps[k - 1]) < dwMaxAge)
      && forall i :: k <= i < |stamps| ==> Age(dwTime, stamps[i]) >= dwMaxAge
    decreases |stamps|
  {
    if stamps != [] && Age(dwTime, stamps[|stamps| - 1]) >= dwMaxAge {
      KeptUpToTheLastYoung(stamps[..|stamps| - 1], dwTime, dwMaxAge);
      assert forall i :: 0 <= i < |stamps| - 1 ==> stamps[..|stamps| - 1][i] == stamps[i];
    }
  }

  function Stamps(items: seq<Item>): (s: seq<nat>)
    reads items`dwLastInUseTime
    ensures |s| == |items| && forall i :: 0 <= i < |s| ==> s[i] == items[i].dwLastInUseTime
  {
    if items == [] then [] else Stamps(items[..|items| - 1]) + [items[|items| - 1].dwLastInUseTime]
  }

  /** The item after position i. */
  ghost function Next(f: seq<Item>, i: nat): Item? {
    if i + 1 < |f| then f[i + 1] else null
  }

  ghost function Prev(f: seq<Item>, i: nat): Item? {
    if 0 < i <= |f| then f[i - 1] else null
  }

  /** The links of a list. The back link of the first item may be stale. */
  ghost predicate Chained(f: seq<Item>)
    reads f`lpNext, f`lpPrev
  {
    && (forall i, j :: 0 <= i < j < |f| ==> f[i] != f[j])
    && (forall i :: 0 <= i < |f| ==> f[i].lpNext == Next(f, i))
    && (forall i :: 0 < i < |f| ==> f[i].lpPrev == Prev(f, i))
  }

  /** Newest first, and none newer than now. */
  ghost predicate Dated(f: seq<Item>, now: nat)
    reads f`time, f`dwLastInUseTime
  {
    && (forall i :: 0 <= i < |f| ==> f[i].time <= now && f[i].dwLastInUseTime == f[i].time % DWORD_LIMIT)
    && forall i, j :: 0 <= i < j < |f| ==> f[i].time >= f[j].time
  }

  lemma ChainedRest(f: seq<Item>)
    requires f != [] && Chained(f)
    ensures Chained(f[1..]) && f[0].lpNext == Next(f, 0) && f[0] !in f[1..]
  {
    var g := f[1..];
    forall i | 0 <= i < |g| ensures g[i].lpNext == Next(g, i) {
      assert g[i] == f[i + 1] && Next(g, i) == Next(f, i + 1);
    }
    forall i | 0 < i < |g| ensures g[i].lpPrev == Prev(g, i) {
      assert g[i] == f[i + 1] && Prev(g, i) == Prev(f, i + 1);
    }
  }

  lemma DatedFront(f: seq<Item>, now: nat)
    requires f != [] && Dated(f, now)
    ensures Dated(f[..|f| - 1], now)
  {
  }

  lemma DatedPush(f: seq<Item>, now: nat, item: Item, clock: nat)
    requires Dated(f, now) && now <= clock && item.time == clock && item.dwLastInUseTime == clock % DWORD_LIMIT
    ensures Dated([item] + f, clock)
  {
  }

  lemma DatedRest(f: seq<Item>, now: nat)
    requires f != [] && Dated(f, now)
    ensures Dated(f[1..], now)
  {
  }

  lemma LastIsFirst(f: seq<Item>)
    requires f != [] && Chained(f) && f[0] == f[|f| - 1]
    ensures |f| == 1
  {
  }

  /** g is what a trim leaves of f, newest first: everything up to the last item that has been free for
      less than dwMaxAge. */
  ghost predicate TrimmedTo(f: seq<Item>, g: seq<Item>, now: nat, dwMaxAge: nat)
    reads f`time
  {
    && |g| <= |f| && g == f[..|g|]
    && (forall i :: 0 <= i < |f| ==> f[i].time <= now)
    && (g != [] ==> (now - f[|g| - 1].time) % DWORD_LIMIT < dwMaxAge)
    && forall i :: |g| <= i < |f| ==> (now - f[i].time) % DWORD_LIMIT >= dwMaxAge
  }

  lemma KeptIsTrimmed(f: seq<Item>, now: nat, dwMaxAge: nat)
    requires Dated(f, now)
    ensures TrimmedTo(f, f[..Kept(Stamps(f), now % DWORD_LIMIT, dwMaxAge)], now, dwMaxAge)
  {
    hide Kept, Stamps, Age;
    KeptUpToTheLastYoung(Stamps(f), now % DWORD_LIMIT, dwMaxAge);
    forall i | 0 <= i < |f|
      ensures Age(now % DWORD_LIMIT, Stamps(f)[i]) == (now - f[i].time) % DWORD_LIMIT
    {
      AgeIsDifference(now, f[i].time);
    }
  }

  /** If no item is older than the clock can tell, exactly the items younger than dwMaxAge stay. */
  lemma KeptAreTheYoung(f: seq<Item>, g: seq<Item>, now: nat, dwMaxAge: nat)
    requires Dated(f, now) && TrimmedTo(f, g, now, dwMaxAge)
    requires forall i :: 0 <= i < |f| ==> now < f[i].time + DWORD_LIMIT
    ensures forall i :: 0 <= i < |f| ==> (i < |g| <==> now - f[i].time < dwMaxAge)
  {
    forall i | 0 <= i < |f| ensures (now - f[i].time) % DWORD_LIMIT == now - f[i].time {
    }
  }

  ghost predicate Apart(live: set<Item>, free: seq<Item>) {
    forall x :: x in live ==> x !in free
  }

  lemma ApartMoved(live: set<Item>, free: seq<Item>, item: Item)
    requires Apart(live, free) && item in live
    ensures item !in free && Apart(live - {item}, [item] + free)
  {
  }

  lemma KeptStep(stamps: seq<nat>, n: nat, dwTime: nat, dwMaxAge: nat)
    requires 0 < n <= |stamps|
    ensures Kept(stamps[..n], dwTime, dwMaxAge) ==
      if Age(dwTime, stamps[n - 1]) < dwMaxAge then n else Kept(stamps[..n - 1], dwTime, dwMaxAge)
  {
    assert stamps[..n][..n - 1] == stamps[..n - 1];
  }

  lemma LastLink(f: seq<Item>)
    requires f != [] && Chained(f) && f[0].lpPrev == null
    ensures f[|f| - 1].lpPrev == (if |f| == 1 then null else f[|f| - 2]) && f[|f| - 1] !in f[..|f| - 1]
  {
    assert |f| > 1 ==> Prev(f, |f| - 1) == f[|f| - 2];
  }

  /** The links of a list with one more item in front. */
  method LinkFront(lpItem: Item, ghost f: seq<Item>, lpHead: Item?)
    requires Chained(f) && lpItem !in f && lpHead == if f == [] then null else f[0]
    modifies lpItem`lpNext, lpItem`lpPrev, f`lpPrev
    ensures Chained([lpItem] + f) && lpItem.lpPrev == null
  {
    hide Next, Prev;
    lpItem.lpPrev := null;
    lpItem.lpNext := lpHead;
    if lpHead != null {
      lpHead.lpPrev := lpItem;
    }
    ghost var g := [lpItem] + f;
    forall i | 0 <= i < |g| ensures g[i].lpNext == Next(g, i) && (i > 0 ==> g[i].lpPrev == Prev(g, i)) {
      FrontNeighbours(lpItem, f, i);
      if i > 1 { assert f[i - 1] != f[0]; }
    }
  }

  /** The neighbours in a list with one more item in front. */
  lemma FrontNeighbours(item: Item, f: seq<Item>, i: nat)
    requires i <= |f|
    ensures var g := [item] + f;
      && g[i] == (if i == 0 then item else f[i - 1])
      && Next(g, i) == (if i > 0 then Next(f, i - 1) else if f == [] then null else f[0])
      && (i > 1 ==> Prev(g, i) == Prev(f, i - 1))
      && (i == 1 ==> Prev(g, i) == item)
  {
  }

  /** The neighbours in a list without its last item. */
  lemma ShorterNeighbours(f: seq<Item>, i: nat)
    requires i + 1 < |f|
    ensures var g := f[..|f| - 1];
      && g[i] == f[i] && Prev(g, i) == Prev(f, i)
      && Next(g, i) == if i == |f| - 2 then null else Next(f, i)
  {
  }

  /** lpItem->dwLastInUseTime = GetTickCount() */
  method Stamp(lpItem: Item, clock: nat)
    modifies lpItem`dwLastInUseTime, lpItem`time
    ensures lpItem.time == clock && lpItem.dwLastInUseTime == clock % DWORD_LIMIT
  {
    lpItem.dwLastInUseTime := clock % DWORD_LIMIT;
    lpItem.time := clock;
  }

  /** The links of a list without its last item. */
  method UnlinkLast(lpPrevItem: Item?, ghost f: seq<Item>)
    requires f != [] && Chained(f) && lpPrevItem == if |f| == 1 then null else f[|f| - 2]
    modifies f`lpNext
    ensures Chained(f[..|f| - 1])
  {
    hide Next, Prev;
    if lpPrevItem != null {
      lpPrevItem.lpNext := null;
    }
    ghost var g := f[..|f| - 1];
    forall i | 0 <= i < |g| ensures g[i].lpNext == Next(g, i) && (i > 0 ==> g[i].lpPrev == Prev(g, i)) {
      ShorterNeighbours(f, i);
      if i < |f| - 2 { assert f[i] != f[|f| - 2]; }
    }
  }

  class TNktMemMgrObjPool {
    var lpHead: Item?
    var lpTail: Item?
    var dwMaxAge: nat
    var dwCheckFreq: nat
    var dwCheckFreqCounter: nat
    ghost var free: seq<Item>
    ghost var live: set<Item>
    ghost var now: nat

    ghost predicate Ends()
      reads this
    {
      && lpHead == (if free == [] then null else free[0])
      && lpTail == (if free == [] then null else free[|free| - 1])
    }

    ghost predicate Valid()
      reads this, free
    {
      && Ends() && Chained(free) && Dated(free, now)
      && Apart(live, free)
      && dwCheckFreqCounter < DWORD_LIMIT
    }

    constructor (dwMaxAge: nat, dwCheckFreq: nat)
      ensures Valid() && free == [] && live == {}
    {
      lpHead, lpTail := null, null;
      this.dwMaxAge, this.dwCheckFreq, dwCheckFreqCounter := dwMaxAge, dwCheckFreq, 0;
      free, live, now := [], {}, 0;
    }

    /** The newest free item, or a new one from the allocator. The back link of the next head stays
        as it is. */
    method IntMemAlloc(memory: bool) returns (lpItem: Item?)
      requires Valid()
      modifies this`lpHead, this`lpTail, this`free, this`live
      ensures Valid()
      ensures old(free) != [] ==> lpItem == old(free)[0] && free == old(free)[1..]
      ensures old(free) == [] ==> free == [] && (lpItem == null <==> !memory) && (lpItem != null ==> fresh(lpItem))
      ensures lpItem != null ==> lpItem !in old(live) && live == old(live) + {lpItem}
      ensures lpItem == null ==> live == old(live)
    {
      hide Chained, Dated;
      if lpHead != null {
        ChainedRest(free);
        DatedRest(free, now);
        lpItem := lpHead;
        if lpItem == lpTail {
          LastIsFirst(free);
          lpTail := null;
        }
        lpHead := lpItem.lpNext;
        free := free[1..];
        live := live + {lpItem};
      } else {
        if !memory {
          return null;
        }
        lpItem := new Item();
        live := live + {lpItem};
      }
    }

    method PushFront(lpItem: Item, clock: nat)
      requires Valid() && lpItem in live && clock >= now
      modifies this`lpHead, this`lpTail, this`free, this`live, this`now, lpItem, free`lpPrev
      ensures Valid() && free == [lpItem] + old(free) && live == old(live) - {lpItem} && now == clock
      ensures lpItem.lpPrev == null && lpItem.time == clock && lpItem.dwLastInUseTime == clock % DWORD_LIMIT
    {
      hide Chained, Dated, Apart;
      ghost var f := free;
      ApartMoved(live, f, lpItem);
      LinkFront(lpItem, f, lpHead);
      if lpTail == null {
        lpTail := lpItem;
      }
      lpHead := lpItem;
      Stamp(lpItem, clock);
      DatedPush(f, now, lpItem, clock);
      free, live, now := [lpItem] + f, live - {lpItem}, clock;
    }

    /** The item goes to the front of the free list. Every dwCheckFreq-th call trims the list. */
    method IntMemFree(lpItem: Item?, clock: nat)
      requires Valid() && (lpItem != null ==> lpItem in live) && clock >= now
      modifies this`lpHead, this`lpTail, this`free, this`live, this`now, this`dwCheckFreqCounter, lpItem
      modifies free`lpNext, free`lpPrev
      ensures Valid()
      ensures lpItem == null ==> free == old(free) && live == old(live) && dwCheckFreqCounter == old(dwCheckFreqCounter)
      ensures lpItem != null ==>
        var c := old(dwCheckFreqCounter + 1) % DWORD_LIMIT;
        && dwCheckFreqCounter == (if c >= dwCheckFreq then 0 else c)
        && live == old(live) - {lpItem} && lpItem.time == clock
        && (c < dwCheckFreq ==> free == [lpItem] + old(free))
        && (c >= dwCheckFreq ==> TrimmedTo([lpItem] + old(free), free, clock, dwMaxAge))
    {
      hide Chained, Dated, Kept, Stamps, TrimmedTo, Apart;
      if lpItem != null {
        PushFront(lpItem, clock);
        dwCheckFreqCounter := (dwCheckFreqCounter + 1) % DWORD_LIMIT;
        if dwCheckFreqCounter >= dwCheckFreq {
          dwCheckFreqCounter := 0;
          IntMemTrimSpace(lpItem.dwLastInUseTime);
        }
      }
    }

    /** The tail leaves the list and goes back to the allocator. */
    method DropTail()
      requires Valid() && free != [] && free[0].lpPrev == null
      modifies this`lpHead, this`lpTail, this`free, free`lpNext
      ensures Valid() && free == old(free)[..|old(free)| - 1]
    {
      hide Chained, Dated;
      LastLink(free);
      var lpPrevItem := lpTail.lpPrev;
      UnlinkLast(lpPrevItem, free);
      if lpTail == lpHead {
        lpHead := null;
      }
      DatedFront(free, now);
      free := free[..|free| - 1];
      lpTail := lpPrevItem;
    }

    /** Gives back items from the tail. It runs only when the head was just freed, so every back link
        is right. */
    method IntMemTrimSpace(dwTime: nat)
      requires Valid() && dwTime == now % DWORD_LIMIT && (free != [] ==> free[0].lpPrev == null)
      modifies this`lpHead, this`lpTail, this`free, free`lpNext
      ensures Valid()
      ensures free == old(free)[..Kept(old(Stamps(free)), dwTime, dwMaxAge)]
      ensures TrimmedTo(old(free), free, now, dwMaxAge)
    {
      hide Chained, Dated, TrimmedTo, Apart, Kept, Stamps;
      ghost var f, stamps := free, Stamps(free);
      KeptIsTrimmed(f, now, dwMaxAge);
      assert stamps[..|free|] == stamps && f[..|f|] == f;
      while lpTail != null
        invariant Valid() && |free| <= |f| && free == f[..|free|] && (free != [] ==> free[0].lpPrev == null)
        invariant Kept(stamps, dwTime, dwMaxAge) == Kept(stamps[..|free|], dwTime, dwMaxAge)
        invariant Stamps(f) == stamps
        decreases |free|
      {
        var dw: int;
        if dwTime >= lpTail.dwLastInUseTime {
          dw := dwTime - lpTail.dwLastInUseTime;
        } else {
          dw := DWORD_LIMIT - 1 - lpTail.dwLastInUseTime + dwTime + 1;
        }
        assert dw == Age(dwTime, stamps[|free| - 1]);
        KeptStep(stamps, |free|, dwTime, dwMaxAge);
        if dw < dwMaxAge {
          break;
        }
        DropTail();
      }
    }
  }
}
