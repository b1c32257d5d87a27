/** The pool allocator over memory: every method works on committed words, headers, records and
list contents as the original does, and is proved to perform the transition of PoolModel.

The ghost field `pool` is the abstract state. The contents of the doubly linked lists are kept
as sequences; module DlList shows what the pointer operations do to them.
*/
module PoolHeap {
  import opened Bits
  import opened Options
  import opened PoolBytes
  import opened PoolMemory
  import opened PoolModel
  import opened PoolRuns
  import opened PoolSafety
  import opened SlabLevel

  datatype Lists = Lists(freeL: seq<nat>, inUse: seq<nat>, full: seq<nat>)

  function ListsOf(lev: Level): Lists {
    Lists(lev.freeL, lev.inUse, lev.full)
  }

  /** DlListRemove, then DlListInsertHead on the list d. */
  function Shift(l: Lists, k: nat, d: Dest): Lists {
    var f, u, g := Without(l.freeL, k), Without(l.inUse, k), Without(l.full, k);
    match d
    case ToFree => Lists([k] + f, u, g)
    case ToInUse => Lists(f, [k] + u, g)
    case ToFull => Lists(f, u, [k] + g)
  }

  // --- Ghost steps of the superchunk manager inside a sound pool

  /** A sound pool whose superchunk level is ready to hand out a slot. */
  ghost predicate SuperReadyPool(pre: Pool) {
    && BinsOk(pre) && Ready(pre.sup, SLOTS, 0) && Conserved(pre.sup, pre.owner) && Regions(pre)
  }

  lemma TakeSlotPool(pre: Pool)
    requires SuperReadyPool(pre)
    ensures CanTake(pre.sup) && pre.sup.inUse[0] >= CHUNK
    ensures OwnerOk(pre.sup.own[pre.sup.inUse[0]], SLOTS)
    ensures Take(pre.sup).level.own ==
      pre.sup.own[pre.sup.inUse[0] := pre.sup.own[pre.sup.inUse[0]].(free := pre.sup.own[pre.sup.inUse[0]].free[1..])]
  {
    hide LevelInv, BinsOk;
  }

  lemma TakeRecFrame(m: Memory, recs: map<nat, SuperRec>, sups: Level)
    requires SuperRep(m, recs, sups) && CanTake(sups) && sups.inUse[0] > 0
    ensures var k := sups.inUse[0]; var r := recs[k];
      && r.first == SlotAt(k, sups.own[k].free[0]) && r.first in m
      && r.freeCount == |sups.own[k].free|
      && (m[r.first] == 0 <==> |sups.own[k].free| == 1)
      && SuperRep(m, recs[k := SuperRec(r.last, r.freeCount - 1, m[r.first])], Take(sups).level)
  {
    hide RecRep;
    var k := sups.inUse[0];
    PopRec(m, recs[k], k, sups.own[k]);
    RecCount(m, recs[k], k, sups.own[k]);
  }

  lemma RecCount(m: Memory, r: SuperRec, k: nat, o: Owner)
    requires RecRep(m, r, k, o)
    ensures r.freeCount == |o.free| && r.last == o.last
  {
  }

  /** The first i blocks point to their successors. */
  ghost predicate Linked(m: Memory, start: nat, stride: nat, i: nat) {
    forall j: nat :: j < i ==> At(start, stride, j) in m && m[At(start, stride, j)] == At(start, stride, j + 1)
  }

  lemma AtBounds(start: nat, stride: nat, i: nat)
    ensures At(start, stride, i) >= start && At(start, stride, 0) == start
  {
  }

  lemma LinkStart(m: Memory, start: nat, stride: nat, lo: nat, n: nat)
    ensures Linked(m, start, stride, 0) && OnlyIn(m, m, lo, n)
  {
  }

  lemma WriteIn(m: Memory, w: Memory, lo: nat, n: nat, a: nat, v: nat)
    requires OnlyIn(m, w, lo, n) && lo <= a < lo + n && Mapped(m, lo, n)
    ensures a in w && OnlyIn(m, w[a := v], lo, n)
  {
  }

  lemma LinkNext(m: Memory, start: nat, stride: nat, i: nat)
    requires Linked(m, start, stride, i) && stride > 0
    ensures Linked(m[At(start, stride, i) := At(start, stride, i + 1)], start, stride, i + 1)
  {
    forall j: nat | j < i ensures At(start, stride, j) != At(start, stride, i) {
      AtInjective(start, stride, j, i);
    }
    hide At;
  }

  lemma LinkLast(m: Memory, start: nat, stride: nat, n: nat)
    requires stride > 0 && n > 0 && Linked(m, start, stride, n - 1)
    ensures Threaded(m[At(start, stride, n - 1) := 0], start, start, stride, Count(n))
  {
    AtBounds(start, stride, 0);
    forall j: nat | j < n - 1 ensures At(start, stride, j) != At(start, stride, n - 1) {
      AtInjective(start, stride, j, n - 1);
    }
    hide At;
    var w := m[At(start, stride, n - 1) := 0];
    forall j | 0 <= j < n
      ensures At(start, stride, j) in w && w[At(start, stride, j)] == Link(start, stride, Count(n), j + 1)
    {
    }
  }

  class PoolHeap {
    var mem: Memory
    var bins: seq<Lists>
    var counter: seq<nat>
    var sup: Lists
    var recs: map<nat, SuperRec>
    var regions: map<nat, nat>  // what VirtualQuery reports for a direct allocation
    ghost var pool: Pool

    ghost predicate ListsMatch()
      reads this
    {
      && |bins| == BINS && |pool.bins| == BINS && |pool.counter| == BINS
      && (forall b :: 0 <= b < BINS ==> bins[b] == ListsOf(pool.bins[b]))
      && counter == pool.counter
      && sup == ListsOf(pool.sup)
      && regions == pool.direct
    }

    ghost predicate Valid()
      reads this
    {
      PoolInv(pool) && ListsMatch() && Rep(mem, recs, pool)
    }

    constructor ()
      ensures Valid() && pool == INITIAL
    {
      mem, counter, recs, regions := map[], seq(BINS, _ => 0), map[], map[];
      bins := seq(BINS, _ => Lists([], [], []));
      sup := Lists([], [], []);
      pool := INITIAL;
      new;
      InitialSound();
    }

    // --- The superchunk manager

    /** The loop that threads the blocks of a new chunk or superchunk: count blocks of the given
        stride, from `start`, linked in ascending order, the last one's link null. */
    method InitLinks(start: nat, stride: nat, count: nat, ghost n: nat)
      requires start > 0 && stride > 0 && count > 0
      requires Mapped(mem, start, n)
      requires AllBelow(start, stride, count, start + n)
      modifies this`mem
      ensures Threaded(mem, start, start, stride, Count(count))
      ensures OnlyIn(old(mem), mem, start, n)
    {
      hide At, Linked, Threaded, Count, Link, OnlyIn;
      AtBounds(start, stride, 0);
      LinkStart(mem, start, stride, start, n);
      var p, dw := start, count;
      while dw > 1
        invariant 1 <= dw <= count
        invariant p == At(start, stride, count - dw)
        invariant Linked(mem, start, stride, count - dw)
        invariant OnlyIn(old(mem), mem, start, n)
      {
        AtNext(start, stride, count - dw);
        AtBounds(start, stride, count - dw);
        LinkNext(mem, start, stride, count - dw);
        WriteIn(old(mem), mem, start, n, p, p + stride);
        mem := mem[p := p + stride];
        p := mem[p];
        dw := dw - 1;
      }
      AtBounds(start, stride, count - 1);
      LinkLast(mem, start, stride, count);
      WriteIn(old(mem), mem, start, n, p, 0);
      mem := mem[p := 0];
    }

    lemma ValidParts()
      requires Valid()
      ensures PoolInv(pool) && ListsMatch() && Rep(mem, recs, pool) && SuperRep(mem, recs, pool.sup)
      ensures recs.Keys == pool.sup.own.Keys
    {
    }

    /** Takes a slot from the head of the in-use list. */
    method TakeSlot() returns (p: nat)
      requires SuperReadyPool(pool) && ListsMatch() && SuperRep(mem, recs, pool.sup)
      modifies this`recs, this`sup, this`pool
      ensures CanTake(old(pool.sup))
      ensures var t := Take(old(pool.sup));
        && pool == old(pool).(sup := t.level)
        && p == SlotAt(t.owner, t.block)
      ensures ListsMatch() && SuperRep(mem, recs, pool.sup)
    {
      hide SuperRep, SuperReadyPool, Without;
      TakeSlotPool(pool);
      TakeRecFrame(mem, recs, pool.sup);
      RecsKnown(mem, recs, pool.sup);
      var k := sup.inUse[0];
      p := recs[k].first;
      recs := recs[k := SuperRec(recs[k].last, recs[k].freeCount - 1, mem[p])];
      if recs[k].first == 0 {
        sup := Shift(sup, k, ToFull);
      }
      pool := pool.(sup := Take(pool.sup).level);
    }

    /** The part of SuperChunk::Alloc that sets up a superchunk in added memory. */
    method InitSuperchunk(k: nat)
      requires k >= CHUNK && forall a :: k <= a < k + SUPERCHUNK ==> a !in mem
      modifies this`mem, this`recs
      ensures Mapped(mem, k, SUPERCHUNK)
      ensures forall a :: a in mem ==> a in old(mem) || k <= a < k + SUPERCHUNK
      ensures forall a :: a in old(mem) ==> a in mem && mem[a] == old(mem[a])
      ensures k in recs && RecRep(mem, recs[k], k, Owner(Count(SLOTS), 0))
      ensures recs == old(recs)[k := recs[k]]
    {
      hide Threaded, Count;
      mem := Commit(mem, k, SUPERCHUNK);
      assert forall i: nat :: At(k, CHUNK, i) == SlotAt(k, i);
      InitLinks(k, CHUNK, SLOTS, SUPERCHUNK);
      recs := recs[k := SuperRec(0, SLOTS, k)];
    }

    /** SuperChunk::Alloc: 0 stands for NULL. */
    method SuperAlloc(base: Option<nat>) returns (p: nat)
      requires Valid() && (base.Some? ==> FreshFor(pool, base.value, SUPERCHUNK))
      requires base.Some? ==> forall a :: base.value <= a < base.value + SUPERCHUNK ==> a !in mem
      modifies this
      ensures bins == old(bins) && counter == old(counter) && regions == old(regions)
      ensures var (sups, slot) := PoolModel.SuperAlloc(old(pool.sup), base);
        && pool == old(pool).(sup := sups)
        && p == (if slot.Some? then slot.value else 0)
      ensures ListsMatch() && Rep(mem, recs, pool)
      ensures forall a :: a in old(mem) ==> a in mem && mem[a] == old(mem[a])
    {
      hide PoolInv, Rep, SuperReadyPool, Take, Without, AddOwner, RecRep, Count, Shape;
      ValidParts();
      SuperAllocSteps(pool, base);
      ghost var was, m := pool, mem;
      if sup.inUse == [] {
        if sup.freeL != [] {
          pool := pool.(sup := Move(pool.sup, pool.sup.freeL[0], ToInUse));
          sup := Shift(sup, sup.freeL[0], ToInUse);
          RecycleRep(mem, recs, was.sup, was.sup.freeL[0]);
        } else {
          match base
          case None => return 0;
          case Some(k) =>
            InitSuperchunk(k);
            NewRecRep(m, mem, old(recs), recs, was.sup, k);
            sup := Lists(sup.freeL, [k] + sup.inUse, sup.full);
            pool := pool.(sup := AddOwner(pool.sup, k, SLOTS));
            AddOwnerLists(was.sup, k);
        }
      }
      p := TakeSlot();
      GrownRep(m, mem, old(recs), recs, was, pool);
    }

    /** The walk along one list for the superchunk that contains p. */
    method FindSuper(list: seq<nat>, p: nat) returns (r: Option<nat>)
      ensures r == Find(list, p)
    {
      var i := 0;
      while i < |list|
        invariant 0 <= i <= |list|
        invariant Find(list, p) == Find(list[i..], p)
      {
        if list[i] <= p < list[i] + SUPERCHUNK {
          return Some(list[i]);
        }
        assert list[i..][1..] == list[i + 1..];
        i := i + 1;
      }
      return None;
    }

    /** SuperChunk::Free of the slot c. The chunk has left its bin: pre is the pool before. */
    method SuperFree(c: nat, tick: nat, maxAge: nat, ghost pre: Pool, ghost b: nat)
      requires PoolInv(pre) && b < BINS && c in pre.bins[b].freeL && |pre.bins| == BINS
      requires pool == WithoutChunk(pre, b, c) && ListsMatch() && Rep(mem, recs, pool) && c in mem
      modifies this
      ensures Valid() && pool == ReleaseChunk(pre, b, c, tick, maxAge)
      ensures HeldKept(old(mem), mem, pool)
      ensures bins == old(bins) && counter == old(counter) && regions == old(regions)
    {
      hide PoolInv, Rep, Without, Shift, Give, PoolModel.SuperFree, Find, Trim, SuperRep, HeldKept, ReleaseChunk,
          DropOwner, Live;
      ghost var k0, i := ReleaseFacts(pre, b, c, tick, maxAge);
      var found := FindSuper(sup.inUse, c);
      var wasFull := found.None?;
      if wasFull {
        found := FindSuper(sup.full, c);
      }
      var k := found.value;
      ghost var m := mem;
      GiveSlot(c, k, wasFull, tick, i);
      ghost var v, given := mem, pool;
      TrimSuper(tick, maxAge);
      SameHeld(m, v, given, pool);
      HeldChain(m, v, mem, pool);
    }

    /** The slot goes to its superchunk's free list, the superchunk to the list that suits it. */
    method GiveSlot(c: nat, k: nat, wasFull: bool, tick: nat, ghost i: nat)
      requires ListsMatch() && Rep(mem, recs, pool) && c in mem
      requires k in pool.sup.own && c == SlotAt(k, i) && c !in pool.owner && Live(pool.sup, k, i, SLOTS)
      requires PoolInv(pool.(sup := Give(pool.sup, k, i, SLOTS, wasFull, tick)))
      modifies this`mem, this`recs, this`sup, this`pool
      ensures Valid() && pool == old(pool).(sup := Give(old(pool.sup), k, i, SLOTS, wasFull, tick))
      ensures HeldKept(old(mem), mem, pool)
    {
      hide PoolInv, Rep, Shift, Give, SuperRep, HeldKept, Live, SlotAt;
      RecsOf(mem, recs, pool);
      GivenRep(mem, recs, pool, k, i, wasFull, tick);
      GiveLists(pool.sup, k, i, wasFull, tick);
      ghost var recs0 := recs;
      mem := mem[c := recs[k].first];
      recs := recs[k := recs[k].(freeCount := recs[k].freeCount + 1, first := c)];
      if recs[k].freeCount >= SLOTS {
        sup := Shift(sup, k, ToFree);
      } else if wasFull {
        sup := Shift(sup, k, ToInUse);
      }
      recs := recs[k := recs[k].(last := tick)];
      pool := pool.(sup := Give(pool.sup, k, i, SLOTS, wasFull, tick));
      assert recs == recs0[k := SuperRec(tick, recs0[k].freeCount + 1, c)];
    }

    /** SuperChunk::Trim: releases the superchunks of the free list that are old enough. */
    method TrimSuper(time: nat, maxAge: nat)
      requires Valid()
      modifies this`mem, this`recs, this`sup, this`pool
      ensures Valid() && pool == old(pool).(sup := Trim(old(pool.sup), old(pool.sup.freeL), |old(pool.sup.freeL)|,
          time, maxAge))
      ensures HeldKept(old(mem), mem, pool)
    {
      hide PoolInv, Rep, Without, SuperRep, HeldKept, Release, DropOwner, LevelInv, Trim;
      var s := sup.freeL;
      var n := |s|;
      SupFreeList(pool);
      HeldMapped(mem, recs, pool);
      while n > 0
        invariant 0 <= n <= |s| && NoDup(s)
        invariant Valid()
        invariant pool == old(pool).(sup := pool.sup)
        invariant forall j :: 0 <= j < n ==> s[j] in pool.sup.freeL
        invariant Trim(pool.sup, s, n, time, maxAge) == Trim(old(pool.sup), s, |s|, time, maxAge)
        invariant HeldKept(old(mem), mem, pool)
      {
        var k := s[n - 1];
        SupFreeList(pool);
        RecsOf(mem, recs, pool);
        TrimStep(pool.sup, s, n, time, maxAge);
        var dw := if time >= recs[k].last then time - recs[k].last else maxAge;
        if dw >= maxAge {
          DropRep(mem, recs, pool, k);
          DropFree(pool.sup, k);
          ghost var v, before := mem, pool;
          sup := Lists(Without(sup.freeL, k), sup.inUse, sup.full);
          mem := Release(mem, k, SUPERCHUNK);
          recs := recs - {k};
          pool := pool.(sup := DropOwner(pool.sup, k));
          SameHeld(old(mem), v, before, pool);
          HeldChain(old(mem), v, mem, pool);
        }
        n := n - 1;
      }
      TrimStep(pool.sup, s, 0, time, maxAge);
    }

    // --- The bins

    /** The part of SmallHeapAlloc that sets up a chunk for bin b in the slot c. */
    method InitChunk(b: nat, c: nat)
      requires b < BINS && c >= CHUNK && Mapped(mem, c, CHUNK)
      modifies this`mem
      ensures ChunkRep(mem, b, c, Owner(Count(Blocks(b)), 0))
      ensures OnlyIn(old(mem), mem, c, CHUNK)
    {
      hide Threaded, Count, TagOf, BinObject, Blocks, BlockSize, At, ChunkRep, OnlyIn;
      BlocksInside(b, c);
      mem := WithHeader(mem, c, Blocks(b), BinObject(b));
      ghost var headed := mem;
      InitLinks(c + HEADER, BlockSize(b), Blocks(b), CHUNK - HEADER);
      HeadedRep(old(mem), headed, mem, b, c);
    }

    /** Takes a block from the head of bin b's in-use list; c is its chunk. */
    method TakeBlock(b: nat) returns (p: nat, ghost c: nat)
      requires b < BINS && ListsMatch() && Prepared(pool, b) && Rep(mem, recs, pool)
      modifies this`mem, this`bins, this`pool
      ensures |old(pool).bins| == BINS
      ensures PoolModel.TakeBlock(old(pool), b, old(pool.bins[b])) == (pool, Some(p))
      ensures Valid()
      ensures c in pool.owner && pool.owner == old(pool.owner) && OnlyIn(old(mem), mem, c, HEADER)
    {
      hide PoolInv, Rep, Prepared, Take, Without, Shift, OnlyIn, ChunkRep;
      PreparedChunk(mem, recs, pool, b);
      c := bins[b].inUse[0];
      var chunk := bins[b].inUse[0];
      TakeReads(mem, b, c, pool.bins[b].own[c]);
      TakeWrites(mem, recs, pool, b, c);
      TakeLists(pool.bins[b]);
      p := mem[chunk + FIRST_AT];
      mem := mem[chunk + COUNT_AT := mem[chunk + COUNT_AT] - 1];
      mem := mem[chunk + FIRST_AT := mem[p]];
      if mem[chunk + FIRST_AT] == 0 {
        bins := bins[b := Shift(bins[b], chunk, ToFull)];
      }
      pool := pool.(bins := pool.bins[b := Take(pool.bins[b]).level]);
      assert mem == Popped(old(mem), chunk);
      TakenBlock(old(pool), b);
    }

    /** The system offers memory that is not committed yet. */
    ghost predicate Offered(base: Option<nat>, size: nat)
      reads this
    {
      base.Some? ==>
        && FreshFor(pool, base.value, size)
        && forall a :: base.value <= a < base.value + size ==> a !in mem
    }

    /** SmallHeapAlloc of bin b: 0 stands for NULL. No live block's contents change. */
    method SmallHeapAlloc(b: nat, base: Option<nat>) returns (p: nat)
      requires Valid() && b < BINS && Offered(base, SUPERCHUNK)
      modifies this
      ensures Valid() && |old(pool).bins| == BINS
      ensures var (post, r) := SmallAlloc(old(pool), b, base);
        pool == post && p == (if r.Some? then r.value else 0)
      ensures LiveKept(old(mem), mem, old(pool), 0)
      ensures regions == old(regions)
    {
      hide PoolInv, Rep, Prepared, Take, Without, Shift, PoolModel.TakeBlock, PoolModel.SuperAlloc, Move, AddOwner,
          Count, ChunkRep, FreshFor, IsLive, OnlyIn, LiveKept;
      ValidParts();
      ghost var pre, m := pool, mem;
      ghost var added := 0;
      GrowthKept(m, m, recs, pre);
      if bins[b].inUse == [] {
        if bins[b].freeL != [] {
          var k := bins[b].freeL[0];
          RecycleBin(mem, recs, pool, b);
          MoveLists(pool.bins[b], k, ToInUse);
          pool := pool.(bins := pool.bins[b := Move(pool.bins[b], k, ToInUse)]);
          bins := bins[b := Shift(bins[b], k, ToInUse)];
        } else {
          NewSlotFacts(pool, b, base);
          var c := SuperAlloc(base);
          GrowthKept(m, mem, old(recs), pre);
          if c == 0 {
            assert PoolModel.SuperAlloc(pre.sup, base).1.None?;
            assert PoolModel.SuperAlloc(pre.sup, base).0 == pre.sup;
            assert pool.sup == pre.sup;
            assert pre == pre.(sup := pre.sup);
            assert pool == pre;
            return 0;
          }
          NewSlotMapped(mem, recs, pre, pool, base, c);
          ghost var v := mem;
          InitChunk(b, c);
          added := c;
          ghost var sups := pool.sup;
          pool := NewChunkPool(pre, b, sups, c);
          NewChunkRep(v, mem, recs, pre, sups, b, c);
          NewChunkLive(m, v, mem, pre, sups, b, c);
          bins := bins[b := Lists(bins[b].freeL, [c] + bins[b].inUse, bins[b].full)];
          AddBinLists(pre.bins[b], c, b);
        }
      } else {
        InUsePrepared(pool, b);
      }
      ghost var ready, before := pool, mem;
      ghost var chunk;
      p, chunk := TakeBlock(b);
      OwnedPositive(pool, chunk);
      OwnedPositive(pre, 0);
      TakeLive(m, before, mem, pre, ready, chunk, added);
    }

    /** The bin's Trim: gives the old enough chunks of its free list back, from the tail. */
    method TrimChunks(b: nat, time: nat, e: Env)
      requires Valid() && b < BINS && |pool.bins| == BINS
      modifies this
      ensures Valid() && |pool.bins| == BINS && regions == old(regions)
      ensures pool == TrimBin(old(pool), b, old(pool.bins[b].freeL), |old(pool.bins[b].freeL)|, time, e, 1)
      ensures HeldKept(old(mem), mem, pool)
    {
      hide PoolInv, Rep, Without, SuperRep, HeldKept, DropOwner, PoolModel.SuperFree, WithoutChunk, TrimBin,
          ReleaseChunk;
      var s := bins[b].freeL;
      var n, j := |s|, 1;
      FreeListOwned(pool, b);
      HeldMapped(mem, recs, pool);
      while n > 0
        invariant 0 <= n <= |s| && NoDup(s)
        invariant Valid() && |pool.bins| == BINS && regions == old(regions)
        invariant forall x :: 0 <= x < n ==> s[x] in pool.bins[b].freeL
        invariant TrimBin(pool, b, s, n, time, e, j) == TrimBin(old(pool), b, s, |s|, time, e, 1)
        invariant HeldKept(old(mem), mem, pool)
      {
        var c := s[n - 1];
        WithoutRep(mem, recs, pool, b, c);
        TrimBinStep(pool, b, s, n, time, e, j);
        ReleaseChunkList(pool, b, c, Tick(e, j), e.maxAge);
        var dw := if time >= mem[c + LAST_AT] then time - mem[c + LAST_AT] else e.maxAge;
        if dw >= e.maxAge {
          ghost var pre, v := pool, mem;
          ReleaseBins(pre, b, c, Tick(e, j), e.maxAge);
          bins := bins[b := Lists(Without(bins[b].freeL, c), bins[b].inUse, bins[b].full)];
          pool := WithoutChunk(pre, b, c);
          SuperFree(c, Tick(e, j), e.maxAge, pre, b);
          SubHeld(old(mem), v, pre, pool);
          HeldChain(old(mem), v, mem, pool);
          j := j + 1;
        }
        n := n - 1;
      }
      TrimNothing(pool, b, s, time, e, j);
    }

    /** The block goes in front of its chunk's free list. */
    method PushBlock(c: nat, p: nat)
      requires c + FIRST_AT in mem && c + COUNT_AT in mem && p !in {c + FIRST_AT, c + COUNT_AT}
      modifies this`mem
      ensures mem == Pushed(old(mem), c, p)
      ensures c + COUNT_AT in mem && mem[c + COUNT_AT] == old(mem)[c + COUNT_AT] + 1
    {
      mem := mem[p := mem[c + FIRST_AT]];
      mem := mem[c + FIRST_AT := p];
      mem := mem[c + COUNT_AT := mem[c + COUNT_AT] + 1];
    }

    /** The first part of SmallHeapFree: the block goes to its chunk's free list, the chunk to
        the list that suits it. */
    method GiveBlock(b: nat, p: nat, tick: nat, ghost i: nat)
      requires Valid() && LiveSmall(pool, p) && pool.owner[HeaderOf(p)] == b && |pool.bins| == BINS
      requires i == BlockIndex(b, p - HeaderOf(p) - HEADER)
      modifies this`mem, this`bins, this`pool
      ensures Valid()
      ensures HeaderOf(p) in old(pool).bins[b].own &&
          pool == GivenPool(old(pool), b, HeaderOf(p), i, tick, old(pool).counter)
      ensures LiveKept(old(mem), mem, old(pool), p)
      ensures HeaderOf(p) + LAST_AT in mem && mem[HeaderOf(p) + LAST_AT] == tick
    {
      hide PoolInv, Rep, Without, Shift, SuperRep, Give, Live, ChunkRep, OwnerOk, HeaderOf, BlockIndex, OnlyIn,
          LiveKept, IsLive, GivenPool, Blocks, BlockSize, BlockAt, LiveSmall, Pushed;
      ghost var pre, m := pool, mem;
      var c := HeaderOf(p);
      ghost var o := GiveBlockFacts(m, recs, pre, b, p, i, tick);
      BinGiveLists(pre.bins[b], c, i, Blocks(b), tick);
      GivenLists(pre, b, c, i, tick, pre.counter);
      PushBlock(c, p);
      if mem[c + COUNT_AT] >= Blocks(b) {
        bins := bins[b := Shift(bins[b], c, ToFree)];
      } else if mem[c + COUNT_AT] > Blocks(b) / 4 {
        bins := bins[b := Shift(bins[b], c, ToInUse)];
      }
      mem := mem[c + LAST_AT := tick];
      pool := GivenPool(pre, b, c, i, tick, pre.counter);
    }

    /** SmallHeapFree of bin b. No other live block's contents change. */
    method SmallHeapFree(b: nat, p: nat, e: Env)
      requires Valid() && LiveSmall(pool, p) && pool.owner[HeaderOf(p)] == b
      modifies this
      ensures Valid() && regions == old(regions)
      ensures b < BINS == |old(pool).bins| == |old(pool).counter| && HeaderOf(p) in old(pool).bins[b].own
      ensures p >= HeaderOf(p) + HEADER
      ensures pool == SmallFree(old(pool), b, HeaderOf(p), BlockIndex(b, p - HeaderOf(p) - HEADER), e)
      ensures LiveKept(old(mem), mem, old(pool), p)
    {
      hide PoolInv, Rep, Give, Live, ChunkRep, OwnerOk, HeaderOf, BlockIndex, TrimBin, LiveKept, HeldKept, IsLive,
          GivenPool, LiveSmall, SmallFree;
      ghost var pre, m := pool, mem;
      ghost var b0, c, i, o := FreeFacts(m, recs, pre, p);
      GivenLists(pre, b, c, i, Tick(e, 0), pre.counter);
      GiveBlock(b, p, Tick(e, 0), i);
      ghost var v := mem;
      SmallFreeTrimmed(pre, b, c, i, e);
      GivenCounter(pre, mem, recs, b, c, i, Tick(e, 0), pre.counter[b := pre.counter[b] + 1]);
      GivenCounter(pre, mem, recs, b, c, i, Tick(e, 0), pre.counter[b := 0]);
      counter := counter[b := counter[b] + 1];
      pool := pool.(counter := counter);
      if counter[b] >= e.checkFreq {
        counter := counter[b := 0];
        assert counter == pre.counter[b := 0];
        pool := pool.(counter := counter);
        GivenLists(pre, b, c, i, Tick(e, 0), pre.counter[b := 0]);
        TrimChunks(b, mem[HeaderOf(p) + LAST_AT], e);
        TrimmedLive(m, v, mem, pre, pool, b, c, i, p, e);
      }
    }

    /** The bin's SanityCheck: walks the threaded list of chunk c. The walk ends, it meets as many
        blocks as dwFreeCount says, no block twice, and they are exactly the blocks of the chunk
        that are not live. */
    method SanityCheck(c: nat) returns (count: nat, ghost blocks: seq<nat>)
      requires Valid() && c in pool.owner
      ensures c in mem && mem[c] == TagOf(c) && c + COUNT_AT in mem
      ensures count == |blocks| == mem[c + COUNT_AT] <= Blocks(pool.owner[c])
      ensures NoDup(blocks)
      ensures forall i: nat :: i < Blocks(pool.owner[c]) ==>
        (BlockAt(pool.owner[c], c, i) in blocks <==> !LiveSmall(pool, BlockAt(pool.owner[c], c, i)))
      ensures forall p :: p in blocks ==> c + HEADER <= p < c + CHUNK
    {
      hide PoolInv, Rep, Blocks, BlockSize, BlockAt, LiveSmall, At, TagOf, BinObject;
      ghost var b, o := SanityFacts(mem, recs, pool, c);
      blocks := [];
      count := 0;
      var p := mem[c + FIRST_AT];
      while p != 0
        invariant count == |blocks| <= |o.free|
        invariant p == Link(c + HEADER, BlockSize(b), o.free, count)
        invariant forall j :: 0 <= j < count ==> blocks[j] == BlockAt(b, c, o.free[j])
        decreases |o.free| - count
      {
        NullLink(c + HEADER, BlockSize(b), o.free, count);
        AtIsBlock(b, c, o.free[count]);
        blocks := blocks + [p];
        count := count + 1;
        p := mem[p];
      }
      NullLink(c + HEADER, BlockSize(b), o.free, count);
      WalkedBlocks(pool, b, c, o, blocks);
    }

    // --- The entry points

    /** Malloc: 0 stands for NULL. No live block's contents change. */
    method Alloc(n: nat, e: Env) returns (p: nat)
      requires Valid()
      requires Offered(e.base, if IndexFromSize(n) < BINS then SUPERCHUNK else RegionSize(n))
      modifies this
      ensures Valid() && |old(pool).bins| == BINS
      ensures var (post, r) := Malloc(old(pool), n, e);
        pool == post && p == (if r.Some? then r.value else 0)
      ensures LiveKept(old(mem), mem, old(pool), 0)
    {
      hide PoolInv, Rep, LiveKept, FreshFor, SmallAlloc, IndexFromSize, RegionSize;
      ValidParts();
      var b := IndexFromSize(n);
      if b < BINS {
        p := SmallHeapAlloc(b, e.base);
      } else {
        GrowthKept(mem, mem, recs, pool);
        match e.base
        case None => p := 0;
        case Some(d) =>
          if RegionSize(n) == 0 {
            p := 0;
          } else {
            RegionSizeIsPages(n);
            DirectAllocKeeps(pool, d, RegionSize(n));
            DirectRep(mem, recs, pool, d, RegionSize(n));
            mem := Commit(mem, d, RegionSize(n));
            regions := regions[d := RegionSize(n)];
            mem := mem[d := TagOf(d)];
            p := d + HEADER;
            pool := pool.(direct := pool.direct[d := RegionSize(n)]);
          }
      }
    }

    /** Free of NULL or of a live pointer. No other live block's contents change. */
    method Free(p: nat, e: Env)
      requires Valid() && (p == 0 || IsLive(pool, p))
      modifies this
      ensures Valid() && |old(pool).bins| == |old(pool).counter| == BINS
      ensures pool == PoolModel.Free(old(pool), p, e)
      ensures LiveKept(old(mem), mem, old(pool), p)
    {
      hide PoolInv, Rep, LiveKept, SmallFree, LiveSmall, LiveDirect, HeaderOf, BlockIndex, BinObject, BinOfObject,
          Release;
      ValidParts();
      PoolCounter(pool);
      if p == 0 {
        GrowthKept(mem, mem, recs, pool);
        return;
      }
      HeaderTells(mem, recs, pool, p);
      ghost var pre, m := pool, mem;
      var c := HeaderOf(p);
      if mem[c + OWNER_AT] != 0 {
        var b := BinOfObject(mem[c + OWNER_AT]);
        SmallHeapFree(b, p, e);
      } else {
        DirectFreeRep(m, recs, pre, c);
        DirectFreeKeeps(pre, c);
        mem := Release(mem, c, regions[c]);
        regions := regions - {c};
        pool := pool.(direct := pool.direct - {c});
        DirectFreeLive(m, mem, pre, c);
      }
    }

    /** BlockSize: the bin's block size, or what the system reports past the header. */
    method GetSize(p: nat) returns (n: nat)
      requires Valid() && (p == 0 || IsLive(pool, p))
      ensures n == PoolModel.GetSize(pool, p) && (p == 0 ==> n == 0)
    {
      hide PoolInv, Rep, LiveSmall, LiveDirect, HeaderOf, BinObject, BinOfObject;
      n := 0;
      if p != 0 {
        HeaderTells(mem, recs, pool, p);
        var c := HeaderOf(p);
        if mem[c + OWNER_AT] != 0 {
          n := BlockSize(BinOfObject(mem[c + OWNER_AT]));
        } else {
          n := if regions[c] >= HEADER then regions[c] - HEADER else 0;
        }
      }
    }

    /** A store of the client into a block it holds: the k bytes of v at some offset, inside one word
        of the block. They are all that changes, and the allocator's state survives it. */
    method ClientWrite(p: nat, offset: nat, k: nat, v: nat)
      requires Valid() && IsLive(pool, p) && offset + k <= PoolModel.GetSize(pool, p)
      requires k > 0 && offset % 8 + k <= 8
      modifies this`mem
      ensures Valid() && pool == old(pool)
      ensures OnlyIn(old(mem), mem, CellOf(p + offset), 1)
      ensures forall a: nat :: CellOf(a) in old(mem) ==>
        && CellOf(a) in mem
        && ByteAt(mem, a) == if p + offset <= a < p + offset + k then WordByte(v, a - (p + offset))
            else ByteAt(old(mem), a)
    {
      hide PoolInv, Rep, IsLive, PoolModel.GetSize, Insert, WordByte, ByteAt;
      ValidParts();
      LiveMapped(mem, recs, pool, p);
      LiveAligned(pool, p);
      var a := p + offset;
      CellInBlock(p, offset);
      StoreBytes(mem, a, k, v);
      ClientWriteRep(mem, mem[CellOf(a) := Insert(mem[CellOf(a)], a % 8, k, v)], recs, pool, p);
      mem := mem[CellOf(a) := Insert(mem[CellOf(a)], a % 8, k, v)];
    }

    /** nktMemCopy of n bytes between two aligned blocks: whole words first, then the bytes of
        the last, partly copied word. */
    method CopyBlock(dst: nat, src: nat, n: nat)
      requires Valid() && IsLive(pool, dst) && IsLive(pool, src) && dst != src
      requires n <= PoolModel.GetSize(pool, dst) && n <= PoolModel.GetSize(pool, src)
      modifies this`mem
      ensures Valid() && pool == old(pool)
      ensures Copied(old(mem), mem, dst, src, n)
      ensures OnlyIn(old(mem), mem, dst, n)
      ensures n % 8 != 0 ==> (
        && dst + (n - n % 8) in old(mem) && dst + (n - n % 8) in mem
        && HighBytes(mem[dst + (n - n % 8)], n % 8) == HighBytes(old(mem)[dst + (n - n % 8)], n % 8))
    {
      hide PoolInv, Rep, IsLive, PoolModel.GetSize, Copied, OnlyIn, CopiedWords, HighBytes, LowBytes, Splice;
      ValidParts();
      LiveMapped(mem, recs, pool, dst);
      LiveMapped(mem, recs, pool, src);
      LiveDisjoint(pool, dst, src);
      ghost var m := mem;
      CopyStart(m, dst, src);
      var i := 0;
      while 8 * i + 8 <= n
        invariant 0 <= i && 8 * i <= n
        invariant CopiedWords(m, mem, dst, src, i)
      {
        CopyReads(m, mem, dst, src, n, i);
        CopyWord(m, mem, dst, src, n, i);
        mem := mem[dst + 8 * i := mem[src + 8 * i]];
        i := i + 1;
      }
      CopyTail(m, mem, dst, src, n, i);
      if 8 * i < n {
        CopyReads(m, mem, dst, src, n, i);
        mem := mem[dst + 8 * i := Splice(mem[src + 8 * i], mem[dst + 8 * i], n - 8 * i)];
      }
      CopyRep(m, mem, recs, pool, dst, n);
    }

    /** Realloc, where the copy fits (see CopyFits): otherwise it would leave the new block. */
    method Realloc(p: nat, n: nat, alloc: Env, release: Env) returns (r: nat)
      requires Valid() && (p == 0 || IsLive(pool, p)) && n < SIZE_LIMIT
      requires p == 0 || n == 0 || CopyFits(n, PoolModel.GetSize(pool, p))
      requires Offered(alloc.base, if IndexFromSize(n) < BINS then SUPERCHUNK else RegionSize(n))
      modifies this
      ensures Valid() && |old(pool).bins| == |old(pool).counter| == BINS
      ensures p == 0 ==> r == AddressOf(Malloc(old(pool), n, alloc).1) && pool == Malloc(old(pool), n, alloc).0
      ensures p != 0 && n == 0 ==> r == 0 && pool == PoolModel.Free(old(pool), p, release)
      ensures p != 0 && n != 0 ==>
        var (post, s) := Malloc(old(pool), n, alloc);
        && r == AddressOf(s)
        && |post.bins| == |post.counter| == BINS
        && (s.None? ==> pool == old(pool) && LiveKept(old(mem), mem, old(pool), 0))
        && (s.Some? ==>
              && pool == PoolModel.Free(post, p, release)
              && IsLive(pool, r) && !IsLive(old(pool), r)
              && BytesCopied(old(mem), mem, r, p, Least(PoolModel.GetSize(old(pool), p), n)))
      ensures LiveKept(old(mem), mem, old(pool), p)
    {
      hide PoolInv, Rep, IsLive, PoolModel.GetSize, ListsMatch, LiveKept, Malloc, PoolModel.Free, FreshFor,
          IndexFromSize, RegionSize, OnlyIn, Copied, BytesCopied, CopyFits;
      ghost var pre, m := pool, mem;
      ValidParts();
      PoolCounter(pre);
      assert EnvOk(pre, n, alloc);
      MallocKeeps(pre, n, alloc);
      if p == 0 {
        r := Alloc(n, alloc);
        return;
      }
      if n == 0 {
        Free(p, release);
        r := 0;
        return;
      }
      var size := GetSize(p);
      r := Alloc(n, alloc);
      ghost var post, v := pool, mem;
      PoolCounter(post);
      if r != 0 {
        CopyFitsIff(pre, n, alloc, size);
        SizeKept(pre, n, alloc, p);
        CopyBlock(r, p, if size < n then size else n);
        ghost var w := mem;
        FreeKeeps(post, p, release);
        Free(p, release);
        ReallocLive(m, v, w, mem, pre, n, alloc, p, r, Least(size, n));
        LiveAligned(pre, p);
        LiveAligned(post, r);
        CopiedBytes(m, mem, r, p, Least(size, n));
      } else {
        assert Malloc(pre, n, alloc).1.None?;
        WeakerKept(m, mem, pre, p);
      }
    }
  }

  // --- Ghost steps of SanityCheck

  lemma SanityFacts(m: Memory, recs: map<nat, SuperRec>, pre: Pool, c: nat) returns (b: nat, o: Owner)
    requires PoolInv(pre) && Rep(m, recs, pre) && c in pre.owner
    ensures b == pre.owner[c] && b < BINS == |pre.bins| && c in pre.bins[b].own && o == pre.bins[b].own[c]
    ensures Mapped(m, c, CHUNK) && m[c] == TagOf(c) && m[c + COUNT_AT] == |o.free| <= Blocks(b)
    ensures Threaded(m, m[c + FIRST_AT], c + HEADER, BlockSize(b), o.free)
    ensures OwnerOk(o, Blocks(b)) && c % CHUNK == 0
  {
    hide LevelInv, Conserved, Supers, Blocks, BlockSize, Threaded, RegionRep, SuperRep, TagOf, BinObject;
    OwnersOk(pre);
    OwnedIsAligned(pre, c);
    b := pre.owner[c];
    o := pre.bins[b].own[c];
    Pigeonhole(o.free, Blocks(b));
  }

  lemma AtIsBlock(b: nat, c: nat, i: nat)
    ensures At(c + HEADER, BlockSize(b), i) == BlockAt(b, c, i)
  {
    hide BlockSize;
  }

  lemma WalkedBlocks(pre: Pool, b: nat, c: nat, o: Owner, blocks: seq<nat>)
    requires b < BINS == |pre.bins| && c in pre.owner && pre.owner[c] == b && c in pre.bins[b].own &&
        o == pre.bins[b].own[c]
    requires OwnerOk(o, Blocks(b)) && c % CHUNK == 0
    requires |blocks| == |o.free| && forall j :: 0 <= j < |blocks| ==> blocks[j] == BlockAt(b, c, o.free[j])
    ensures NoDup(blocks)
    ensures forall i: nat :: i < Blocks(b) ==> (BlockAt(b, c, i) in blocks <==> !LiveSmall(pre, BlockAt(b, c, i)))
    ensures forall p :: p in blocks ==> c + HEADER <= p < c + CHUNK
  {
    hide Blocks, BlockSize, BlockAt;
    forall i: nat | i < Blocks(b)
      ensures i in o.free <==> !LiveSmall(pre, BlockAt(b, c, i))
    {
      BlockDecode(b, c, i);
    }
    forall j, k | 0 <= j < k < |blocks| ensures blocks[j] != blocks[k] {
      BlocksApart(b, c, o.free[j], o.free[k]);
    }
    forall i: nat | i < Blocks(b) ensures BlockAt(b, c, i) in blocks <==> i in o.free {
      if i in o.free {
        var j :| 0 <= j < |o.free| && o.free[j] == i;
        assert blocks[j] == BlockAt(b, c, i);
      }
      if BlockAt(b, c, i) in blocks {
        var j :| 0 <= j < |blocks| && blocks[j] == BlockAt(b, c, i);
        if o.free[j] != i { BlocksApart(b, c, o.free[j], i); }
        assert o.free[j] == i;
      }
    }
    forall p | p in blocks ensures c + HEADER <= p < c + CHUNK {
      var j :| 0 <= j < |blocks| && blocks[j] == p;
      assert o.free[j] in o.free;
      BlockInChunk(b, c, o.free[j]);
    }
  }

  // --- Ghost steps of the entry points

  function AddressOf(r: Option<nat>): nat {
    if r.Some? then r.value else 0
  }

  lemma DirectRep(m: Memory, recs: map<nat, SuperRec>, pre: Pool, d: nat, size: nat)
    requires PoolInv(pre) && Rep(m, recs, pre) && size >= PAGE && d !in pre.owner && d !in pre.direct
    requires forall a :: d <= a < d + size ==> a !in m
    ensures var w := Commit(m, d, size)[d := TagOf(d)];
      Rep(w, recs, pre.(direct := pre.direct[d := size])) && LiveKept(m, w, pre, 0)
  {
    hide PoolInv, ChunkRep, SuperRep, TagOf, LiveKept;
    var w := Commit(m, d, size)[d := TagOf(d)];
    GrowthKept(m, w, recs, pre);
    SupersGrow(m, w, recs, pre.sup);
    GrownRep(m, w, recs, recs, pre, pre);
  }

  lemma SupersGrow(m: Memory, w: Memory, recs: map<nat, SuperRec>, sups: Level)
    requires SuperRep(m, recs, sups) && forall a :: a in m ==> a in w && w[a] == m[a]
    ensures SuperRep(w, recs, sups)
  {
    hide RecRep;
    forall k | k in sups.own ensures RecRep(w, recs[k], k, sups.own[k]) {
      RecGrow(m, w, recs[k], k, sups.own[k]);
    }
  }

  /** The header that a live pointer's high bits select carries the tag, and its owner field
      tells which bin serves the pointer, or that none does. */
  lemma HeaderTells(m: Memory, recs: map<nat, SuperRec>, pre: Pool, p: nat)
    requires PoolInv(pre) && Rep(m, recs, pre) && IsLive(pre, p)
    ensures p != 0
    ensures var c := HeaderOf(p);
      && c in m && m[c] == TagOf(c) && c + OWNER_AT in m
      && (m[c + OWNER_AT] != 0 <==> LiveSmall(pre, p))
      && (LiveSmall(pre, p) ==>
            && c in pre.owner && m[c + OWNER_AT] >= BIN_MEM && BinOfObject(m[c + OWNER_AT]) == pre.owner[c])
      && (!LiveSmall(pre, p) ==> c in pre.direct && c !in pre.owner && p == c + HEADER)
  {
    hide PoolInv, SuperRep, Threaded, TagOf, Live;
    LiveExtent(pre, p);
    if HeaderOf(p) in pre.direct { DirectNotOwned(pre, HeaderOf(p)); }
  }

  lemma DirectFreeRep(m: Memory, recs: map<nat, SuperRec>, pre: Pool, d: nat)
    requires PoolInv(pre) && Rep(m, recs, pre) && d in pre.direct
    ensures var post := pre.(direct := pre.direct - {d}); var w := Release(m, d, pre.direct[d]);
      Rep(w, recs, post) && HeldKept(m, w, post)
  {
    hide PoolInv, ChunkRep, SuperRep, RegionRep, Release, AgreeOn, Blocks;
    var post := pre.(direct := pre.direct - {d});
    var w := Release(m, d, pre.direct[d]);
    HeldMapped(m, recs, pre);
    OwnersOk(pre);
    forall c | c in post.owner ensures AgreeOn(m, w, c, CHUNK) {
      ChunkAndRegionApart(pre, c, d);
      AgreeRelease(m, c, CHUNK, d, pre.direct[d]);
    }
    forall x | x in post.direct ensures AgreeOn(m, w, x, post.direct[x]) {
      RegionsApart(pre, x, d);
      AgreeRelease(m, x, pre.direct[x], d, pre.direct[d]);
    }
    HeldFrame(m, w, post);
    DirectFreeSupers(m, recs, pre, d);
  }

  lemma DirectFreeSupers(m: Memory, recs: map<nat, SuperRec>, pre: Pool, d: nat)
    requires PoolInv(pre) && SuperRep(m, recs, pre.sup) && d in pre.direct
    ensures SuperRep(Release(m, d, pre.direct[d]), recs, pre.sup)
  {
    hide LevelInv, Conserved, BinsOk, RecRep, Release;
    forall k | k in pre.sup.own ensures RecRep(Release(m, d, pre.direct[d]), recs[k], k, pre.sup.own[k]) {
      assert Apart(d, pre.direct[d], k, SUPERCHUNK);
      SupOwnerOk(pre, k);
      RecRelease(m, recs[k], k, pre.sup.own[k], d, pre.direct[d]);
    }
  }

  lemma DirectFreeLive(m: Memory, w: Memory, pre: Pool, d: nat)
    requires PoolInv(pre) && d in pre.direct
    requires var post := pre.(direct := pre.direct - {d});
      PoolInv(post) && HeldKept(m, w, post) && Removes(pre, post, d + HEADER)
    ensures LiveKept(m, w, pre, d + HEADER)
  {
    hide PoolInv, IsLive, Extent, HeaderOf, HeldKept, GetSize;
    var post := pre.(direct := pre.direct - {d});
    forall q: nat | IsLive(pre, q) && q != d + HEADER ensures AgreeOn(m, w, q, GetSize(pre, q)) {
      LiveExtent(post, q);
      SameSize(pre, post, q);
      ExtentKept(m, w, post, HeaderOf(q), q, GetSize(post, q));
    }
  }

  lemma SameSize(pre: Pool, post: Pool, q: nat)
    requires post.owner == pre.owner && forall d :: d in post.direct ==>
        d in pre.direct && post.direct[d] == pre.direct[d]
    requires HeaderOf(q) in post.owner || HeaderOf(q) in post.direct
    ensures GetSize(post, q) == GetSize(pre, q)
  {
    hide BlockSize;
  }

  /** Whatever a client writes into a live block, the representation stands. */
  lemma ClientWriteRep(m: Memory, w: Memory, recs: map<nat, SuperRec>, pre: Pool, p: nat)
    requires PoolInv(pre) && Rep(m, recs, pre) && IsLive(pre, p) && OnlyIn(m, w, p, GetSize(pre, p))
    ensures Rep(w, recs, pre)
  {
    hide PoolInv, Rep, GetSize, LiveSmall, OnlyIn, HeaderOf;
    LiveExtent(pre, p);
    if LiveSmall(pre, p) {
      SmallWriteRep(m, w, recs, pre, p);
    } else {
      DirectNotOwned(pre, HeaderOf(p));
      DirectWriteRep(m, w, recs, pre, HeaderOf(p), p);
    }
  }

  lemma SmallWriteRep(m: Memory, w: Memory, recs: map<nat, SuperRec>, pre: Pool, p: nat)
    requires PoolInv(pre) && Rep(m, recs, pre) && LiveSmall(pre, p) && OnlyIn(m, w, p, GetSize(pre, p))
    ensures Rep(w, recs, pre)
  {
    hide PoolInv, ChunkRep, SuperRep, RegionRep, Blocks, BlockSize, Live, LiveSmall, OnlyIn, OwnerOk;
    var b, c, i, o := FreeFacts(m, recs, pre, p);
    OwnersOk(pre);
    LiveExtent(pre, p);
    Widen(m, w, p, BlockSize(b), c, CHUNK);
    ChunkWriteFrame(m, w, recs, pre, c);
    BlockWriteChunk(m, w, b, c, o, i);
  }

  lemma Widen(m: Memory, w: Memory, p: nat, n: nat, lo: nat, size: nat)
    requires OnlyIn(m, w, p, n) && lo <= p && p + n <= lo + size
    ensures OnlyIn(m, w, lo, size)
  {
  }

  lemma BlockWriteChunk(m: Memory, w: Memory, b: nat, c: nat, o: Owner, i: nat)
    requires b < BINS && ChunkRep(m, b, c, o) && OwnerOk(o, Blocks(b)) && i < Blocks(b) && i !in o.free
    requires OnlyIn(m, w, BlockAt(b, c, i), BlockSize(b))
    ensures ChunkRep(w, b, c, o)
  {
    hide Blocks, BlockSize, BinObject, TagOf, Threaded, BlockAt, At;
    BlockInChunk(b, c, i);
    forall j | j in o.free
      ensures At(c + HEADER, BlockSize(b), j) in m && At(c + HEADER, BlockSize(b), j) in w
      ensures w[At(c + HEADER, BlockSize(b), j)] == m[At(c + HEADER, BlockSize(b), j)]
    {
      BlockInChunk(b, c, j);
      BlocksApart(b, c, i, j);
    }
    ThreadFrame(m, w, m[c + FIRST_AT], c + HEADER, BlockSize(b), o.free);
  }

  lemma BlocksApart(b: nat, c: nat, i: nat, j: nat)
    requires i != j
    ensures Apart(BlockAt(b, c, i), BlockSize(b), BlockAt(b, c, j), BlockSize(b))
  {
    hide BlockSize;
    StridesApart(c + HEADER, i, j, BlockSize(b));
  }

  lemma DirectWriteRep(m: Memory, w: Memory, recs: map<nat, SuperRec>, pre: Pool, d: nat, p: nat)
    requires PoolInv(pre) && Rep(m, recs, pre) && d in pre.direct && p == d + HEADER
    requires OnlyIn(m, w, p, GetSize(pre, p)) && p + GetSize(pre, p) <= d + pre.direct[d]
    ensures Rep(w, recs, pre)
  {
    hide PoolInv, ChunkRep, SuperRep, RegionRep, AgreeOn, Blocks, GetSize;
    HeldMapped(m, recs, pre);
    OwnersOk(pre);
    var post := pre.(direct := pre.direct - {d});
    forall c | c in post.owner ensures AgreeOn(m, w, c, CHUNK) {
      ChunkAndRegionApart(pre, c, d);
      AgreeOutside(m, w, c, CHUNK, p, GetSize(pre, p));
    }
    forall x | x in post.direct ensures AgreeOn(m, w, x, post.direct[x]) {
      RegionsApart(pre, x, d);
      AgreeOutside(m, w, x, pre.direct[x], p, GetSize(pre, p));
    }
    HeldFrame(m, w, post);
    RegionBody(m, w, d, pre.direct[d], GetSize(pre, p));
    DirectWriteSupers(m, w, recs, pre, d, GetSize(pre, p));
    forall x | x in pre.direct ensures RegionRep(w, x, pre.direct[x]) {
      if x != d { assert x in post.direct && post.direct[x] == pre.direct[x]; }
    }
    forall c | c in pre.owner ensures ChunkRep(w, pre.owner[c], c, pre.bins[pre.owner[c]].own[c]) {
      assert c in post.owner && post.owner[c] == pre.owner[c];
    }
  }

  lemma AgreeOutside(m: Memory, w: Memory, lo: nat, n: nat, p: nat, size: nat)
    requires AgreeOn(m, m, lo, n) && OnlyIn(m, w, p, size) && Apart(lo, n, p, size)
    ensures AgreeOn(m, w, lo, n)
  {
  }

  lemma RegionBody(m: Memory, w: Memory, d: nat, size: nat, n: nat)
    requires RegionRep(m, d, size) && OnlyIn(m, w, d + HEADER, n)
    ensures RegionRep(w, d, size)
  {
    hide TagOf;
  }

  lemma DirectWriteSupers(m: Memory, w: Memory, recs: map<nat, SuperRec>, pre: Pool, d: nat, n: nat)
    requires PoolInv(pre) && SuperRep(m, recs, pre.sup) && d in pre.direct
    requires OnlyIn(m, w, d + HEADER, n) && HEADER + n <= pre.direct[d]
    ensures SuperRep(w, recs, pre.sup)
  {
    hide LevelInv, Conserved, BinsOk, RecRep;
    forall k | k in pre.sup.own ensures RecRep(w, recs[k], k, pre.sup.own[k]) {
      assert Apart(d, pre.direct[d], k, SUPERCHUNK);
      SupOwnerOk(pre, k);
      RecOutside(m, w, recs[k], k, pre.sup.own[k], d + HEADER, n);
    }
  }

  lemma RecOutside(m: Memory, w: Memory, r: SuperRec, x: nat, o: Owner, lo: nat, n: nat)
    requires RecRep(m, r, x, o) && Apart(x, SUPERCHUNK, lo, n) && OwnerOk(o, SLOTS) && OnlyIn(m, w, lo, n)
    ensures RecRep(w, r, x, o)
  {
    hide Threaded;
    RecFrame(m, w, r, x, o);
  }

  lemma CopyRep(m: Memory, w: Memory, recs: map<nat, SuperRec>, pre: Pool, p: nat, n: nat)
    requires PoolInv(pre) && Rep(m, recs, pre) && IsLive(pre, p) && OnlyIn(m, w, p, n) && n <= GetSize(pre, p)
    ensures Rep(w, recs, pre)
  {
    hide PoolInv, Rep, IsLive, GetSize;
    ClientWriteRep(m, w, recs, pre, p);
  }

  ghost predicate CopiedWords(m: Memory, w: Memory, dst: nat, src: nat, i: nat) {
    && OnlyIn(m, w, dst, 8 * i)
    && forall j: nat :: j < i ==> src + 8 * j in m && dst + 8 * j in w && w[dst + 8 * j] == m[src + 8 * j]
  }

  lemma CopyStart(m: Memory, dst: nat, src: nat)
    ensures CopiedWords(m, m, dst, src, 0)
  {
  }

  /** The source block is apart from the destination, so it still reads as at the start. */
  lemma CopyReads(m: Memory, w: Memory, dst: nat, src: nat, n: nat, i: nat)
    requires CopiedWords(m, w, dst, src, i) && 8 * i < n
    requires Mapped(m, dst, n) && Mapped(m, src, n) && Apart(dst, n, src, n)
    ensures src + 8 * i in w && dst + 8 * i in w && w[src + 8 * i] == m[src + 8 * i]
    ensures dst + 8 * i in m && w[dst + 8 * i] == m[dst + 8 * i]
  {
  }

  lemma CopyWord(m: Memory, w: Memory, dst: nat, src: nat, n: nat, i: nat)
    requires CopiedWords(m, w, dst, src, i) && 8 * i + 8 <= n
    requires src + 8 * i in m && dst + 8 * i in w
    ensures CopiedWords(m, w[dst + 8 * i := m[src + 8 * i]], dst, src, i + 1)
  {
  }

  lemma CopyTail(m: Memory, w: Memory, dst: nat, src: nat, n: nat, i: nat)
    requires CopiedWords(m, w, dst, src, i) && n < 8 * i + 8 && 8 * i <= n
    requires 8 * i < n ==> src + 8 * i in m && dst + 8 * i in m
    ensures 8 * i == n ==> Copied(m, w, dst, src, n) && OnlyIn(m, w, dst, n)
    ensures 8 * i < n ==>
      var z := w[dst + 8 * i := Splice(m[src + 8 * i], m[dst + 8 * i], n - 8 * i)];
      && Copied(m, z, dst, src, n) && OnlyIn(m, z, dst, n)
      && HighBytes(z[dst + (n - n % 8)], n % 8) == HighBytes(m[dst + (n - n % 8)], n % 8)
  {
    hide Splice, LowBytes, HighBytes;
    assert n % 8 == n - 8 * i;
    if 8 * i < n {
      SpliceBytes(m[src + 8 * i], m[dst + 8 * i], n - 8 * i);
    }
  }

  lemma WeakerKept(m: Memory, w: Memory, pre: Pool, p: nat)
    requires LiveKept(m, w, pre, 0) && PoolInv(pre)
    ensures LiveKept(m, w, pre, p)
  {
    hide PoolInv, IsLive, GetSize;
    if IsLive(pre, 0) { LiveExtent(pre, 0); }
  }

  lemma SizeKept(pre: Pool, n: nat, e: Env, p: nat)
    requires PoolInv(pre) && EnvOk(pre, n, e) && IsLive(pre, p)
    ensures var post := Malloc(pre, n, e).0; IsLive(post, p) && GetSize(post, p) == GetSize(pre, p)
  {
    hide PoolInv, IsLive, GetSize, Malloc, EnvOk;
    PoolCounter(pre);
    MallocKeeps(pre, n, e);
    MallocHeaders(pre, n, e);
    SizesStable(pre, Malloc(pre, n, e).0, p);
  }

  /** Through the allocation, the copy and the release. */
  lemma ReallocLive(m: Memory, v: Memory, w: Memory, z: Memory, pre: Pool, n: nat, e: Env, p: nat, r: nat, size: nat)
    requires PoolInv(pre) && EnvOk(pre, n, e) && Malloc(pre, n, e).1 == Some(r) && IsLive(pre, p) && r != p
    requires LiveKept(m, v, pre, 0) && Copied(v, w, r, p, size) && OnlyIn(v, w, r, size)
    requires var post := Malloc(pre, n, e).0;
      && PoolInv(post) && LiveKept(w, z, post, p) && IsLive(post, r) && !IsLive(pre, r)
      && size <= GetSize(post, r) && size <= GetSize(pre, p) && p != 0
    ensures Copied(m, z, r, p, size)
    ensures LiveKept(m, z, pre, p)
  {
    hide PoolInv, IsLive, GetSize, Malloc, EnvOk, Copied, OnlyIn;
    PoolCounter(pre);
    var post := Malloc(pre, n, e).0;
    CopiedChain(m, v, w, z, r, p, size, GetSize(pre, p), GetSize(post, r));
    forall q: nat | IsLive(pre, q) && q != p ensures AgreeOn(m, z, q, GetSize(pre, q)) {
      LiveExtent(pre, q);
      SizeKept(pre, n, e, q);
      LiveDisjoint(post, q, r);
      AgreeThrough(m, v, w, z, q, GetSize(pre, q), r, size);
    }
  }

  lemma AgreeThrough(m: Memory, v: Memory, w: Memory, z: Memory, q: nat, n: nat, r: nat, size: nat)
    requires AgreeOn(m, v, q, n) && AgreeOn(w, z, q, n) && OnlyIn(v, w, r, size) && Apart(q, n, r, size)
    ensures AgreeOn(m, z, q, n)
  {
  }

  lemma CopiedChain(m: Memory, v: Memory, w: Memory, z: Memory, dst: nat, src: nat, n: nat, srcSize: nat, dstSize: nat)
    requires Copied(v, w, dst, src, n) && AgreeOn(m, v, src, srcSize) && AgreeOn(w, z, dst, dstSize)
    requires n <= srcSize && n <= dstSize
    ensures Copied(m, z, dst, src, n)
  {
    hide LowBytes;
  }

  // --- Ghost steps of SmallHeapFree

  lemma WithoutRep(m: Memory, recs: map<nat, SuperRec>, pre: Pool, b: nat, c: nat)
    requires PoolInv(pre) && Rep(m, recs, pre) && b < BINS == |pre.bins| && c in pre.bins[b].freeL
    ensures c in pre.bins[b].own && c in pre.owner && pre.owner[c] == b
    ensures c in m && c + LAST_AT in m && m[c + LAST_AT] == pre.bins[b].own[c].last
    ensures Rep(m, recs, WithoutChunk(pre, b, c))
    ensures WithoutChunk(pre, b, c).owner == pre.owner - {c} && WithoutChunk(pre, b, c).direct == pre.direct
    ensures WithoutChunk(pre, b, c).bins[b].freeL == Without(pre.bins[b].freeL, c)
  {
    hide Rep, LevelInv, Conserved, Supers, Without, Blocks, BlockSize;
    BinInvariant(pre, b);
    FreeListDistinct(pre.bins[b], Blocks(b), Blocks(b) / 4);
    WithoutStillRep(m, recs, pre, b, c);
  }

  lemma WithoutStillRep(m: Memory, recs: map<nat, SuperRec>, pre: Pool, b: nat, c: nat)
    requires Rep(m, recs, pre) && b < BINS == |pre.bins| && c in pre.bins[b].own && c in pre.owner && pre.owner[c] == b
    ensures c in m && c + LAST_AT in m && m[c + LAST_AT] == pre.bins[b].own[c].last
    ensures Rep(m, recs, WithoutChunk(pre, b, c))
  {
    hide Threaded, RegionRep, SuperRep, Without, Blocks, BlockSize, TagOf, BinObject;
    forall x, y | 0 <= x < BINS && y in pre.owner && pre.owner[y] == x ensures y in pre.bins[x].own {}
  }

  lemma SubHeld(m: Memory, w: Memory, pre: Pool, post: Pool)
    requires HeldKept(m, w, pre) && post.direct == pre.direct && forall c :: c in post.owner ==> c in pre.owner
    ensures HeldKept(m, w, post)
  {
    hide AgreeOn;
  }

  /** Memory after a block went back to the free list of chunk c. */
  ghost function Pushed(m: Memory, c: nat, p: nat): Memory
    requires c + FIRST_AT in m && c + COUNT_AT in m
  {
    m[p := m[c + FIRST_AT]][c + FIRST_AT := p][c + COUNT_AT := m[c + COUNT_AT] + 1]
  }

  lemma FreeFacts(m: Memory, recs: map<nat, SuperRec>, pre: Pool, p: nat) returns (b: nat, c: nat, i: nat, o: Owner)
    requires PoolInv(pre) && Rep(m, recs, pre) && LiveSmall(pre, p)
    ensures c == HeaderOf(p) && c in pre.owner && pre.owner[c] == b && b < BINS == |pre.bins| == |pre.counter|
    ensures i == BlockIndex(b, p - c - HEADER) && p == BlockAt(b, c, i) && i < Blocks(b)
    ensures Live(pre.bins[b], c, i, Blocks(b)) && c in pre.bins[b].own && o == pre.bins[b].own[c]
    ensures ChunkRep(m, b, c, o) && OwnerOk(o, Blocks(b)) && i !in o.free
    ensures c + HEADER <= p < c + CHUNK
    ensures Mapped(m, c, CHUNK) && m[c + COUNT_AT] == |o.free|
  {
    hide LevelInv, Conserved, Supers, Blocks, BlockSize, Threaded, RegionRep, SuperRep, TagOf, BinObject;
    b, c, i := LiveSmallIsBlock(pre, p);
    OwnersOk(pre);
    o := pre.bins[b].own[c];
  }

  lemma PushedChunk(m: Memory, b: nat, c: nat, o: Owner, i: nat, tick: nat)
    requires b < BINS && ChunkRep(m, b, c, o) && OwnerOk(o, Blocks(b)) && i < Blocks(b) && i !in o.free
    ensures Mapped(m, c, CHUNK)
    ensures var p := BlockAt(b, c, i); var w := Pushed(m, c, p)[c + LAST_AT := tick];
      && ChunkRep(w, b, c, Owner([i] + o.free, tick))
      && OnlyIn(m, w, c, CHUNK)
      && w.Keys == m.Keys
      && (forall a :: a in m && a != p && !(c <= a < c + HEADER) ==> w[a] == m[a])
  {
    hide Blocks, BlockSize, ChunkRep, BlockAt;
    RepMapped(m, b, c, o);
    BlockInChunk(b, c, i);
    PushChunk(m, b, c, o, i);
    var p := BlockAt(b, c, i);
    MoreOk(o, i, Blocks(b));
    SetLastChunk(Pushed(m, c, p), b, c, o.(free := [i] + o.free), tick);
  }

  lemma MoreOk(o: Owner, i: nat, total: nat)
    requires OwnerOk(o, total) && i < total && i !in o.free
    ensures OwnerOk(o.(free := [i] + o.free), total)
  {
  }

  /** The pool right after the block was given back, before any trimming. */
  ghost function GivenPool(pre: Pool, b: nat, c: nat, i: nat, tick: nat, counter: seq<nat>): Pool
    requires b < |pre.bins| && c in pre.bins[b].own
  {
    var upd := Give(pre.bins[b], c, i, Blocks(b), |pre.bins[b].own[c].free| + 1 > Blocks(b) / 4, tick);
    pre.(bins := pre.bins[b := upd], counter := counter)
  }

  lemma GivenPoolRep(m: Memory, w: Memory, recs: map<nat, SuperRec>, pre: Pool, b: nat, c: nat, i: nat, tick: nat,
      counter: seq<nat>)
    requires PoolInv(pre) && Rep(m, recs, pre) && b < BINS == |pre.bins| && c in pre.owner && pre.owner[c] == b
    requires c in pre.bins[b].own && Live(pre.bins[b], c, i, Blocks(b)) && |counter| == BINS
    requires OnlyIn(m, w, c, CHUNK) && ChunkRep(w, b, c, Owner([i] + pre.bins[b].own[c].free, tick))
    ensures PoolInv(GivenPool(pre, b, c, i, tick, counter))
    ensures Rep(w, recs, GivenPool(pre, b, c, i, tick, counter))
    ensures Removes(pre, GivenPool(pre, b, c, i, tick, counter), BlockAt(b, c, i))
  {
    hide Blocks, BlockSize, ChunkRep, Give, PoolInv, Live, RegionRep, SuperRep, IsLive, BlockAt, OnlyIn;
    GiveBlockKeeps(pre, b, c, i, tick, counter);
    OwnersOk(pre);
    ChunkWriteFrame(m, w, recs, pre, c);
    GiveLive(pre.bins[b], c, i, Blocks(b), |pre.bins[b].own[c].free| + 1 > Blocks(b) / 4, tick);
  }

  lemma BinGiveLists(lev: Level, c: nat, i: nat, total: nat, tick: nat)
    requires c in lev.own
    ensures var n := |lev.own[c].free| + 1;
      ListsOf(Give(lev, c, i, total, n > total / 4, tick)) ==
        if n >= total then Shift(ListsOf(lev), c, ToFree)
        else if n > total / 4 then Shift(ListsOf(lev), c, ToInUse)
        else ListsOf(lev)
  {
    hide Without;
  }

  lemma GiveBlockFacts(m: Memory, recs: map<nat, SuperRec>, pre: Pool, b: nat, p: nat, i: nat, tick: nat)
      returns (o: Owner)
    requires PoolInv(pre) && Rep(m, recs, pre) && LiveSmall(pre, p) && pre.owner[HeaderOf(p)] == b && |pre.bins| == BINS
    requires i == BlockIndex(b, p - HeaderOf(p) - HEADER)
    ensures var c := HeaderOf(p);
      && b < BINS && c in pre.bins[b].own && o == pre.bins[b].own[c]
      && Mapped(m, c, CHUNK) && c + HEADER <= p < c + CHUNK && m[c + COUNT_AT] == |o.free|
      && var w := Pushed(m, c, p)[c + LAST_AT := tick]; var post := GivenPool(pre, b, c, i, tick, pre.counter);
      && LiveKept(m, w, pre, p) && PoolInv(post) && Rep(w, recs, post)
  {
    hide PoolInv, Rep, Give, Live, ChunkRep, OwnerOk, HeaderOf, BlockIndex, OnlyIn, LiveKept, IsLive, GivenPool,
        Blocks, BlockSize, BlockAt, GetSize, LiveSmall;
    var b0, c, i0, owner := FreeFacts(m, recs, pre, p);
    o := owner;
    PushedChunk(m, b, c, o, i, tick);
    var w := Pushed(m, c, p)[c + LAST_AT := tick];
    SmallSize(pre, p, b);
    PushLive(m, w, recs, pre, c, p);
    PoolCounter(pre);
    GivenPoolRep(m, w, recs, pre, b, c, i, tick, pre.counter);
  }

  lemma PoolCounter(pre: Pool)
    requires PoolInv(pre)
    ensures |pre.counter| == |pre.bins| == BINS
  {
    hide LevelInv, Conserved, Regions;
  }

  /** Giving p back writes to p itself and to the header of its chunk. */
  lemma PushLive(m: Memory, w: Memory, recs: map<nat, SuperRec>, pre: Pool, c: nat, p: nat)
    requires PoolInv(pre) && Rep(m, recs, pre) && IsLive(pre, p) && c in pre.owner && GetSize(pre, p) > 0
    requires w.Keys == m.Keys && forall a :: a in m && a != p && !(c <= a < c + HEADER) ==> w[a] == m[a]
    ensures LiveKept(m, w, pre, p)
  {
    hide PoolInv, Rep, IsLive, GetSize;
    forall q: nat | IsLive(pre, q) && q != p ensures AgreeOn(m, w, q, GetSize(pre, q)) {
      LiveMapped(m, recs, pre, q);
      LiveDisjoint(pre, q, p);
      HeaderApart(pre, c, q);
    }
  }

  /** What stays live through the trimming keeps its contents. */
  lemma TrimLive(m: Memory, v: Memory, w: Memory, pre: Pool, post: Pool, p: nat)
    requires PoolInv(pre) && PoolInv(post) && Removes(pre, post, p) && LiveKept(m, v, pre, p) && HeldKept(v, w, post)
    requires PoolRunsAgree(pre, post)
    ensures LiveKept(m, w, pre, p)
  {
    hide PoolInv, IsLive, GetSize, Extent, HeaderOf;
    forall q: nat | IsLive(pre, q) && q != p ensures AgreeOn(m, w, q, GetSize(pre, q)) {
      LiveExtent(post, q);
      SizesStable(pre, post, q);
      ExtentKept(v, w, post, HeaderOf(q), q, GetSize(post, q));
      AgreeChain(m, v, w, q, GetSize(pre, q));
    }
  }

  ghost predicate PoolRunsAgree(pre: Pool, post: Pool) {
    post.direct == pre.direct && forall c :: c in post.owner ==> c in pre.owner && post.owner[c] == pre.owner[c]
  }

  lemma ExtentKept(v: Memory, w: Memory, post: Pool, c: nat, q: nat, n: nat)
    requires HeldKept(v, w, post) && (c in post.owner || c in post.direct)
    requires c <= q && q + n <= c + Extent(post, c)
    ensures AgreeOn(v, w, q, n)
  {
    if c in post.owner {
      assert AgreeOn(v, w, c, CHUNK);
    } else {
      assert AgreeOn(v, w, c, post.direct[c]);
    }
  }

  lemma ReleaseBins(pre: Pool, b: nat, c: nat, tick: nat, maxAge: nat)
    requires b < |pre.bins|
    ensures var post := ReleaseChunk(pre, b, c, tick, maxAge);
      && post.owner == pre.owner - {c} && post.direct == pre.direct
      && WithoutChunk(pre, b, c) == pre.(bins := pre.bins[b := DropOwner(pre.bins[b], c)], owner := pre.owner - {c})
      && post.bins == pre.bins[b := DropOwner(pre.bins[b], c)]
      && post.bins[b].freeL == Without(pre.bins[b].freeL, c)
      && post.bins[b].inUse == pre.bins[b].inUse && post.bins[b].full == pre.bins[b].full
  {
    hide PoolModel.SuperFree;
  }

  lemma GivenCounter(pre: Pool, m: Memory, recs: map<nat, SuperRec>, b: nat, c: nat, i: nat, tick: nat,
      counter: seq<nat>)
    requires b < |pre.bins| && c in pre.bins[b].own && |counter| == BINS
    requires var post := GivenPool(pre, b, c, i, tick, pre.counter); PoolInv(post) && Rep(m, recs, post)
    ensures var post := GivenPool(pre, b, c, i, tick, counter);
      PoolInv(post) && Rep(m, recs, post) && post == GivenPool(pre, b, c, i, tick, pre.counter).(counter := counter)
  {
    hide Give, Blocks;
    CounterInv(GivenPool(pre, b, c, i, tick, pre.counter), counter);
    CounterRep(m, recs, GivenPool(pre, b, c, i, tick, pre.counter), counter);
  }

  lemma CounterInv(pre: Pool, counter: seq<nat>)
    requires PoolInv(pre) && |counter| == BINS
    ensures PoolInv(pre.(counter := counter))
  {
    hide LevelInv, Conserved, Supers, Blocks;
  }

  lemma CounterRep(m: Memory, recs: map<nat, SuperRec>, pre: Pool, counter: seq<nat>)
    requires Rep(m, recs, pre)
    ensures Rep(m, recs, pre.(counter := counter))
  {
    hide ChunkRep, SuperRep, RegionRep;
  }

  lemma SmallSize(pre: Pool, p: nat, b: nat)
    requires LiveSmall(pre, p) && pre.owner[HeaderOf(p)] == b
    ensures GetSize(pre, p) > 0 && IsLive(pre, p)
  {
    hide Live, Blocks;
  }

  lemma GivenLists(pre: Pool, b: nat, c: nat, i: nat, tick: nat, counter: seq<nat>)
    requires b < |pre.bins| && c in pre.bins[b].own
    ensures var post := GivenPool(pre, b, c, i, tick, counter);
      && post.bins == pre.bins[b := Give(pre.bins[b], c, i, Blocks(b), |pre.bins[b].own[c].free| + 1 > Blocks(b) / 4,
          tick)]
      && post.counter == counter && post.sup == pre.sup && post.direct == pre.direct && post.owner == pre.owner
  {
    hide Blocks, Give;
  }

  lemma SmallFreeTrimmed(pre: Pool, b: nat, c: nat, i: nat, e: Env)
    requires b < |pre.bins| == |pre.counter| && c in pre.bins[b].own
    ensures var post := GivenPool(pre, b, c, i, Tick(e, 0), pre.counter[b := 0]);
      SmallFree(pre, b, c, i, e) ==
        if pre.counter[b] + 1 >= e.checkFreq
        then TrimBin(post, b, post.bins[b].freeL, |post.bins[b].freeL|, Tick(e, 0), e, 1)
        else GivenPool(pre, b, c, i, Tick(e, 0), pre.counter[b := pre.counter[b] + 1])
  {
    hide Blocks, Give, TrimBin;
  }

  lemma TrimmedLive(m: Memory, v: Memory, w: Memory, pre: Pool, post: Pool, b: nat, c: nat, i: nat, p: nat, e: Env)
    requires PoolInv(pre) && PoolInv(post) && b < BINS == |pre.bins| == |pre.counter|
    requires c in pre.owner && pre.owner[c] == b && Live(pre.bins[b], c, i, Blocks(b)) && p == BlockAt(b, c, i)
    requires c in pre.bins[b].own && post == SmallFree(pre, b, c, i, e)
    requires LiveKept(m, v, pre, p) && HeldKept(v, w, post)
    ensures LiveKept(m, w, pre, p)
  {
    hide PoolInv, Live, IsLive, Blocks, SmallFree, LiveKept, HeldKept, BlockAt;
    SmallFreeKeeps(pre, b, c, i, e);
    SmallFreeOwners(pre, b, c, i, e);
    TrimLive(m, v, w, pre, post, p);
  }

  lemma SmallFreeOwners(pre: Pool, b: nat, c: nat, i: nat, e: Env)
    requires b < |pre.bins| == |pre.counter| && c in pre.bins[b].own
    ensures PoolRunsAgree(pre, SmallFree(pre, b, c, i, e))
  {
    hide Blocks, Give, TrimBin;
    var post := GivenPool(pre, b, c, i, Tick(e, 0), pre.counter[b := 0]);
    TrimBinHeaders(post, b, post.bins[b].freeL, |post.bins[b].freeL|, Tick(e, 0), e, 1);
  }

  // --- Ghost steps of SuperChunk::Free

  /** The pool after the chunk c left bin b and before its slot is free again. */
  ghost function WithoutChunk(pre: Pool, b: nat, c: nat): Pool
    requires b < |pre.bins|
  {
    pre.(bins := pre.bins[b := DropOwner(pre.bins[b], c)], owner := pre.owner - {c})
  }

  lemma RecsOf(m: Memory, recs: map<nat, SuperRec>, pre: Pool)
    requires Rep(m, recs, pre)
    ensures recs.Keys == pre.sup.own.Keys
    ensures forall k :: k in pre.sup.own ==>
        recs[k].freeCount == |pre.sup.own[k].free| && recs[k].last == pre.sup.own[k].last
  {
    hide ChunkRep, RegionRep, Threaded;
  }

  lemma SupFreeList(pre: Pool)
    requires PoolInv(pre)
    ensures NoDup(pre.sup.freeL) && forall k :: k in pre.sup.freeL ==> k in pre.sup.own
  {
    hide BinsOk, Conserved;
    FreeListDistinct(pre.sup, SLOTS, 0);
  }

  lemma DropFree(sups: Level, k: nat)
    ensures ListsOf(DropOwner(sups, k)) == Lists(Without(sups.freeL, k), sups.inUse, sups.full)
    ensures forall x :: x in DropOwner(sups, k).freeL <==> x in sups.freeL && x != k
  {
  }

  lemma HeldChain(m: Memory, v: Memory, w: Memory, pre: Pool)
    requires HeldKept(m, v, pre) && HeldKept(v, w, pre)
    ensures HeldKept(m, w, pre)
  {
    hide AgreeOn;
    forall c | c in pre.owner ensures AgreeOn(m, w, c, CHUNK) { AgreeChain(m, v, w, c, CHUNK); }
    forall d | d in pre.direct ensures AgreeOn(m, w, d, pre.direct[d]) { AgreeChain(m, v, w, d, pre.direct[d]); }
  }

  lemma AgreeChain(m: Memory, v: Memory, w: Memory, lo: nat, n: nat)
    requires AgreeOn(m, v, lo, n) && AgreeOn(v, w, lo, n)
    ensures AgreeOn(m, w, lo, n)
  {
  }

  /** Where SuperChunk::Free finds the slot, and what it does to the pool. */
  lemma ReleaseFacts(pre: Pool, b: nat, c: nat, tick: nat, maxAge: nat) returns (k: nat, i: nat)
    requires PoolInv(pre) && b < BINS && c in pre.bins[b].freeL && |pre.bins| == BINS
    ensures i == (c - k) / CHUNK && i < SLOTS && c == SlotAt(k, i) && k in pre.sup.own
    ensures Find(pre.sup.inUse, c) == Some(k) || (Find(pre.sup.inUse, c) == None && Find(pre.sup.full, c) == Some(k))
    ensures Live(pre.sup, k, i, SLOTS)
    ensures var upd := Give(pre.sup, k, i, SLOTS, Find(pre.sup.inUse, c).None?, tick);
      && PoolInv(WithoutChunk(pre, b, c).(sup := upd))
      && ReleaseChunk(pre, b, c, tick, maxAge) ==
           WithoutChunk(pre, b, c).(sup := Trim(upd, upd.freeL, |upd.freeL|, tick, maxAge))
  {
    hide LevelInv, Conserved, Supers, Give, Trim, Find, Live, DropOwner, BinsOk, Blocks;
    BinInvariant(pre, b);
    FreeListDistinct(pre.bins[b], Blocks(b), Blocks(b) / 4);
    FreshSuperOf(pre, None);
    k, i := FindOwner(pre.sup, pre.owner, c);
    var promote := Find(pre.sup.inUse, c).None?;
    GiveKeeps(pre.sup, k, i, SLOTS, 0, promote, tick);
    GiveLive(pre.sup, k, i, SLOTS, promote, tick);
    GiveConserved(pre.sup, pre.owner, k, i, promote, tick);
    var upd := Give(pre.sup, k, i, SLOTS, promote, tick);
    GiveSupers(pre.sup, upd);
    ReleaseChunkInv(pre, b, c, tick, maxAge);
    SameBins(ReleaseChunk(pre, b, c, tick, maxAge), WithoutChunk(pre, b, c).(sup := upd));
    SameRegions(pre, WithoutChunk(pre, b, c).(sup := upd));
  }

  lemma SameBins(pre: Pool, post: Pool)
    requires PoolInv(pre) && post.bins == pre.bins && post.counter == pre.counter && post.owner == pre.owner
    ensures BinsOk(post)
  {
    hide LevelInv, Conserved, Regions, Blocks;
  }

  lemma SameRegions(pre: Pool, post: Pool)
    requires PoolInv(pre) && post.direct == pre.direct && post.sup.own.Keys == pre.sup.own.Keys && Supers(post.sup)
    ensures Regions(post)
  {
    hide LevelInv, Conserved, Supers, BinsOk;
    assert forall k :: k in post.sup.own <==> k in pre.sup.own;
  }

  lemma GiveLists(sups: Level, k: nat, i: nat, promote: bool, tick: nat)
    requires k in sups.own
    ensures var n := |sups.own[k].free| + 1;
      ListsOf(Give(sups, k, i, SLOTS, promote, tick)) ==
        if n >= SLOTS then Shift(ListsOf(sups), k, ToFree)
        else if promote then Shift(ListsOf(sups), k, ToInUse)
        else ListsOf(sups)
  {
    hide Without;
  }

  lemma GivenRep(m: Memory, recs: map<nat, SuperRec>, post: Pool, k: nat, i: nat, promote: bool, tick: nat)
    requires Rep(m, recs, post) && Live(post.sup, k, i, SLOTS) && k in recs
    requires SlotAt(k, i) !in post.owner && k in post.sup.own
    requires PoolInv(post.(sup := Give(post.sup, k, i, SLOTS, promote, tick)))
    ensures var c := SlotAt(k, i); var w := m[c := recs[k].first];
      var rdy := post.(sup := Give(post.sup, k, i, SLOTS, promote, tick));
      && Rep(w, recs[k := SuperRec(tick, recs[k].freeCount + 1, c)], rdy)
      && HeldKept(m, w, rdy)
  {
    hide LevelInv, Conserved, Supers, Give, BinsOk, Blocks, ChunkRep, RegionRep, HeldKept, SuperRep, RecRep, PoolInv,
        Live;
    var c := SlotAt(k, i);
    var w := m[c := recs[k].first];
    LiveOwned(post.sup, k, i, SLOTS);
    GiveLive(post.sup, k, i, SLOTS, promote, tick);
    var rdy := post.(sup := Give(post.sup, k, i, SLOTS, promote, tick));
    HeldMapped(m, recs, post);
    SameHeld(m, m, post, rdy);
    FreeSlotWrite(m, rdy, k, i, recs[k].first);
    OwnersOk(rdy);
    HeldFrame(m, w, rdy);
    GivenSuperRep(m, recs, post.sup, rdy, k, i, promote, tick);
  }

  lemma SameHeld(m: Memory, w: Memory, pre: Pool, post: Pool)
    requires HeldKept(m, w, pre) && post.owner == pre.owner && post.direct == pre.direct
    ensures HeldKept(m, w, post)
  {
    hide AgreeOn;
  }

  lemma GivenSuperRep(m: Memory, recs: map<nat, SuperRec>, sups: Level, rdy: Pool, k: nat, i: nat, promote: bool,
      tick: nat)
    requires SuperRep(m, recs, sups) && Live(sups, k, i, SLOTS) && k in recs
    requires rdy.sup == Give(sups, k, i, SLOTS, promote, tick) && PoolInv(rdy)
    ensures var c := SlotAt(k, i);
      SuperRep(m[c := recs[k].first], recs[k := SuperRec(tick, recs[k].freeCount + 1, c)], rdy.sup)
  {
    hide LevelInv, Conserved, BinsOk, Give, RecRep;
    GiveLive(sups, k, i, SLOTS, promote, tick);
    var c := SlotAt(k, i);
    var w := m[c := recs[k].first];
    PushRec(m, recs[k], k, sups.own[k], i, tick);
    forall x | x in sups.own && x != k ensures RecRep(w, recs[x], x, sups.own[x]) {
      assert Apart(x, SUPERCHUNK, k, SUPERCHUNK);
      SupOwnerOk(rdy, x);
      RecWriteApart(m, recs[x], x, sups.own[x], c, recs[k].first);
    }
  }

  lemma SupOwnerOk(pre: Pool, k: nat)
    requires PoolInv(pre) && k in pre.sup.own
    ensures OwnerOk(pre.sup.own[k], SLOTS)
  {
    hide Conserved, BinsOk, Regions, Shape;
  }

  lemma RecWriteApart(m: Memory, r: SuperRec, x: nat, o: Owner, a: nat, v: nat)
    requires RecRep(m, r, x, o) && OwnerOk(o, SLOTS) && !(x <= a < x + SUPERCHUNK)
    ensures RecRep(m[a := v], r, x, o)
  {
    hide Threaded;
    RecFrame(m, m[a := v], r, x, o);
  }

  /** Dropping a superchunk of the free list. */
  lemma DropRep(m: Memory, recs: map<nat, SuperRec>, pre: Pool, k: nat)
    requires PoolInv(pre) && Rep(m, recs, pre) && k in pre.sup.freeL
    ensures var post := pre.(sup := DropOwner(pre.sup, k)); var w := Release(m, k, SUPERCHUNK);
      PoolInv(post) && Rep(w, recs - {k}, post) && HeldKept(m, w, post)
  {
    hide LevelInv, Conserved, Supers, BinsOk, Blocks, ChunkRep, RegionRep, HeldKept, SuperRep, RecRep, DropOwner,
        Release, Live;
    SupFreeList(pre);
    FreshSuperOf(pre, None);
    DropKeeps(pre.sup, k, SLOTS, 0);
    DropConserved(pre.sup, pre.owner, k);
    var post := pre.(sup := DropOwner(pre.sup, k));
    var w := Release(m, k, SUPERCHUNK);
    DropPool(pre, k);
    ReleaseFrame(m, recs, pre, k);
    SameHeld(m, w, pre, post);
    OwnersOk(post);
    HeldFrame(m, w, post);
    DropSuperRep(m, recs, pre, k);
  }

  lemma DropConserved(sups: Level, owner: map<nat, nat>, k: nat)
    requires SuperOk(sups, owner) && k in sups.freeL
    ensures Conserved(DropOwner(sups, k), owner)
  {
    DropKeeps(sups, k, SLOTS, 0);
    var nxt := DropOwner(sups, k);
    forall y | y in owner ensures exists x, j: nat :: IsSlot(nxt, x, j, y) {
      var x, j: nat :| IsSlot(sups, x, j, y);
      assert Live(sups, x, j, SLOTS);
      assert IsSlot(nxt, x, j, y);
    }
  }

  lemma DropPool(pre: Pool, k: nat)
    requires PoolInv(pre) && LevelInv(DropOwner(pre.sup, k), SLOTS, 0) && Conserved(DropOwner(pre.sup, k), pre.owner)
    ensures PoolInv(pre.(sup := DropOwner(pre.sup, k)))
  {
    hide LevelInv, Conserved, Without, Blocks;
  }

  lemma DropSuperRep(m: Memory, recs: map<nat, SuperRec>, pre: Pool, k: nat)
    requires SuperRep(m, recs, pre.sup) && PoolInv(pre) && k in pre.sup.own
    ensures SuperRep(Release(m, k, SUPERCHUNK), recs - {k}, DropOwner(pre.sup, k))
  {
    hide LevelInv, Conserved, BinsOk, RecRep, Release, Without;
    forall x | x in pre.sup.own && x != k ensures RecRep(Release(m, k, SUPERCHUNK), recs[x], x, pre.sup.own[x]) {
      assert Apart(x, SUPERCHUNK, k, SUPERCHUNK);
      SupOwnerOk(pre, x);
      RecRelease(m, recs[x], x, pre.sup.own[x], k, SUPERCHUNK);
    }
  }

  // --- Ghost steps of SmallHeapAlloc

  lemma MoveLists(lev: Level, k: nat, d: Dest)
    ensures ListsOf(Move(lev, k, d)) == Shift(ListsOf(lev), k, d)
  {
  }

  lemma AddBinLists(lev: Level, c: nat, b: nat)
    ensures ListsOf(AddOwner(lev, c, Blocks(b))) == Lists(lev.freeL, [c] + lev.inUse, lev.full)
  {
    hide Blocks;
  }

  lemma InUsePrepared(pre: Pool, b: nat)
    requires PoolInv(pre) && b < BINS && pre.bins[b].inUse != []
    ensures Prepared(pre, b)
  {
    hide LevelInv, Conserved, Supers, Blocks, Ready, AllButBin;
    BinInvariant(pre, b);
    SplitBin(pre, b, pre.bins[b]);
    InUseReady(pre.bins[b], Blocks(b), Blocks(b) / 4);
  }

  lemma RecycleBin(m: Memory, recs: map<nat, SuperRec>, pre: Pool, b: nat)
    requires PoolInv(pre) && Rep(m, recs, pre) && b < BINS && pre.bins[b].freeL != []
    ensures |pre.bins| == BINS
    ensures var post := pre.(bins := pre.bins[b := Move(pre.bins[b], pre.bins[b].freeL[0], ToInUse)]);
      && Prepared(post, b) && Rep(m, recs, post)
      && (pre.bins[b].inUse == [] ==>
            forall base :: SmallAlloc(pre, b, base) == PoolModel.TakeBlock(post, b, post.bins[b]))
  {
    hide LevelInv, Conserved, Supers, Blocks, Ready, AllButBin, ChunkRep, SuperRep, RegionRep, Without,
        PoolModel.TakeBlock;
    BinInvariant(pre, b);
    RecycleReady(pre.bins[b], Blocks(b), Blocks(b) / 4);
    var upd := Move(pre.bins[b], pre.bins[b].freeL[0], ToInUse);
    SplitBin(pre, b, upd);
    RecycledSplit(pre, b, upd);
    ReadyCanTake(upd, Blocks(b), Blocks(b) / 4);
    TakeSame(pre, b, upd);
  }

  lemma RecycledSplit(pre: Pool, b: nat, lev: Level)
    requires AllButBin(pre, b, lev)
    ensures AllButBin(pre.(bins := pre.bins[b := lev]), b, lev)
  {
    hide LevelInv, Conserved, Supers, Blocks;
  }

  lemma NewSlotFacts(pre: Pool, b: nat, base: Option<nat>)
    requires PoolInv(pre) && b < BINS && pre.bins[b].inUse == [] && pre.bins[b].freeL == []
    requires base.Some? ==> FreshFor(pre, base.value, SUPERCHUNK)
    ensures |pre.bins| == BINS
    ensures var (sups, slot) := PoolModel.SuperAlloc(pre.sup, base);
      && (slot.None? ==> sups == pre.sup && SmallAlloc(pre, b, base) == (pre, None))
      && (slot.Some? ==>
            && slot.value >= CHUNK && slot.value !in pre.owner && slot.value !in pre.bins[b].own
            && Prepared(NewChunkPool(pre, b, sups, slot.value), b)
            && SmallAlloc(pre, b, base) ==
                 PoolModel.TakeBlock(NewChunkPool(pre, b, sups, slot.value), b,
                     NewChunkPool(pre, b, sups, slot.value).bins[b]))
  {
    hide LevelInv, Conserved, Blocks, Ready, AllButBin, Supers, PoolModel.SuperAlloc, AddOwner, Count, Live;
    BinInvariant(pre, b);
    FreshSuperOf(pre, base);
    SuperAllocKeeps(pre.sup, base, pre.owner, b);
    var (sups, slot) := PoolModel.SuperAlloc(pre.sup, base);
    if slot.Some? {
      NewChunkSplit(pre, b, base);
      AddReady(pre.bins[b], slot.value, Blocks(b), Blocks(b) / 4);
      var lev := AddOwner(pre.bins[b], slot.value, Blocks(b));
      RecycledSplit(WithSlot(pre, b, sups, slot.value), b, lev);
      ReadyCanTake(lev, Blocks(b), Blocks(b) / 4);
      TakeSame(WithSlot(pre, b, sups, slot.value), b, lev);
    }
  }

  /** The pool with the new chunk c at the head of bin b's in-use list. */
  ghost function NewChunkPool(pre: Pool, b: nat, sups: Level, c: nat): Pool
    requires b < |pre.bins|
  {
    var post := WithSlot(pre, b, sups, c);
    post.(bins := post.bins[b := AddOwner(post.bins[b], c, Blocks(b))])
  }

  lemma TakeSame(pre: Pool, b: nat, lev: Level)
    requires b < |pre.bins| && CanTake(lev)
    ensures PoolModel.TakeBlock(pre.(bins := pre.bins[b := lev]), b, lev) == PoolModel.TakeBlock(pre, b, lev)
  {
    hide Take;
    var post := pre.(bins := pre.bins[b := lev]);
    assert post.bins[b := Take(lev).level] == pre.bins[b := Take(lev).level];
  }

  lemma NewSlotMapped(m: Memory, recs: map<nat, SuperRec>, pre: Pool, post: Pool, base: Option<nat>, c: nat)
    requires PoolInv(pre) && (base.Some? ==> FreshFor(pre, base.value, SUPERCHUNK))
    requires PoolModel.SuperAlloc(pre.sup, base) == (post.sup, Some(c)) && Rep(m, recs, post)
    ensures Mapped(m, c, CHUNK)
  {
    hide LevelInv, Conserved, Supers, PoolModel.SuperAlloc, ChunkRep, RegionRep, RecRep, Live, BinsOk;
    FreshSuperOf(pre, base);
    SuperAllocKeeps(pre.sup, base, pre.owner, 0);
    var k, i: nat :| IsSlot(post.sup, k, i, c);
    RecMapped(m, recs[k], k, post.sup.own[k]);
  }

  lemma NewChunkRep(v: Memory, w: Memory, recs: map<nat, SuperRec>, pre: Pool, sups: Level, b: nat, c: nat)
    requires b < BINS == |pre.bins| && Rep(v, recs, pre.(sup := sups)) && c !in pre.owner && c !in pre.bins[b].own
    requires Prepared(NewChunkPool(pre, b, sups, c), b)
    requires OnlyIn(v, w, c, CHUNK) && ChunkRep(w, b, c, Owner(Count(Blocks(b)), 0))
    ensures Rep(w, recs, NewChunkPool(pre, b, sups, c))
  {
    hide ChunkRep, RegionRep, SuperRep, Prepared, Blocks, Count, Separate, OwnerOk;
    var post := NewChunkPool(pre, b, sups, c);
    PreparedOwners(post, b);
    ChunkWriteFrame(v, w, recs, post, c);
  }

  /** The memory of a chunk just obtained is apart from every block that was live. */
  lemma NewChunkApart(pre: Pool, sups: Level, b: nat, c: nat, q: nat)
    requires PoolInv(pre) && b < BINS == |pre.bins| && c !in pre.owner && c >= CHUNK
    requires Prepared(NewChunkPool(pre, b, sups, c), b)
    requires IsLive(pre, q)
    ensures Apart(q, GetSize(pre, q), c, CHUNK)
  {
    hide PoolInv, IsLive, GetSize, Prepared, Separate, HeaderOf;
    LiveExtent(pre, q);
    var post := NewChunkPool(pre, b, sups, c);
    PreparedOwners(post, b);
    var x := HeaderOf(q);
    if x in pre.owner {
      SlotsApart(post, c, x);
    } else {
      SlotInRegion(post, c, x);
    }
  }

  lemma NewChunkLive(m: Memory, v: Memory, w: Memory, pre: Pool, sups: Level, b: nat, c: nat)
    requires PoolInv(pre) && b < BINS == |pre.bins| && c !in pre.owner && c >= CHUNK
    requires Prepared(NewChunkPool(pre, b, sups, c), b)
    requires LiveKept(m, v, pre, 0) && OnlyIn(v, w, c, CHUNK)
    ensures LiveKept(m, w, pre, 0)
    ensures forall q: nat :: IsLive(pre, q) ==> Apart(q, GetSize(pre, q), c, CHUNK)
  {
    hide PoolInv, IsLive, GetSize, Prepared, LiveKept, OnlyIn;
    forall q: nat | IsLive(pre, q) ensures Apart(q, GetSize(pre, q), c, CHUNK) {
      NewChunkApart(pre, sups, b, c, q);
    }
    OutsideKept(m, v, w, pre, c, CHUNK, 0);
  }

  lemma OwnedPositive(pre: Pool, c: nat)
    requires PoolInv(pre)
    ensures c in pre.owner ==> c >= CHUNK
  {
    hide LevelInv, BinsOk;
    if c in pre.owner { OwnedIsAligned(pre, c); }
  }

  /** Unlinking a block writes only to the header of its chunk, which may be the new one. */
  lemma TakeLive(m: Memory, v: Memory, w: Memory, pre: Pool, ready: Pool, c: nat, added: nat)
    requires PoolInv(pre) && LiveKept(m, v, pre, 0) && OnlyIn(v, w, c, HEADER)
    requires c in ready.owner && forall x :: x in ready.owner ==> x in pre.owner || x == added
    requires added != 0 ==> forall q: nat :: IsLive(pre, q) ==> Apart(q, GetSize(pre, q), added, CHUNK)
    requires 0 !in pre.owner && c != 0
    ensures LiveKept(m, w, pre, 0)
  {
    hide PoolInv, IsLive, GetSize, LiveKept, OnlyIn;
    forall q: nat | IsLive(pre, q) ensures Apart(q, GetSize(pre, q), c, HEADER) {
      if c in pre.owner { HeaderApart(pre, c, q); }
    }
    OutsideKept(m, v, w, pre, c, HEADER, 0);
  }

  lemma TakenBlock(pre: Pool, b: nat)
    requires b < |pre.bins| && CanTake(pre.bins[b])
    ensures var t := Take(pre.bins[b]);
      PoolModel.TakeBlock(pre, b, pre.bins[b]) == (pre.(bins := pre.bins[b := t.level]),
          Some(BlockAt(b, t.owner, t.block)))
    ensures Take(pre.bins[b]).owner == pre.bins[b].inUse[0]
    ensures Take(pre.bins[b]).block == pre.bins[b].own[pre.bins[b].inUse[0]].free[0]
  {
  }

  /** Bin b can hand out a block; only the head of its in-use list may be out of class. */
  ghost predicate Prepared(pre: Pool, b: nat) {
    && b < BINS && |pre.bins| == BINS
    && AllButBin(pre, b, pre.bins[b])
    && Ready(pre.bins[b], Blocks(b), Blocks(b) / 4)
  }

  lemma PreparedOwners(pre: Pool, b: nat)
    requires Prepared(pre, b)
    ensures Separate(pre)
    ensures forall x :: x in pre.owner ==> pre.owner[x] < BINS && x in pre.bins[pre.owner[x]].own
    ensures forall x :: x in pre.owner ==> OwnerOk(pre.bins[pre.owner[x]].own[x], Blocks(pre.owner[x]))
    ensures CanTake(pre.bins[b]) && pre.bins[b].inUse[0] in pre.owner && pre.owner[pre.bins[b].inUse[0]] == b
  {
    hide Conserved, Supers, Shape, Placed, Blocks, BlockSize;
    ReadyCanTake(pre.bins[b], Blocks(b), Blocks(b) / 4);
  }

  lemma ReadyCanTake(lev: Level, total: nat, cap: nat)
    requires Ready(lev, total, cap)
    ensures CanTake(lev)
  {
  }

  ghost predicate PopReady(m: Memory, c: nat) {
    && c + COUNT_AT in m && c + FIRST_AT in m && m[c + FIRST_AT] in m
    && m[c + COUNT_AT] > 0 && m[c + FIRST_AT] != c + COUNT_AT
  }

  /** Memory after the head of the free list of chunk c was unlinked. */
  ghost function Popped(m: Memory, c: nat): Memory
    requires PopReady(m, c)
  {
    m[c + COUNT_AT := m[c + COUNT_AT] - 1][c + FIRST_AT := m[m[c + FIRST_AT]]]
  }

  lemma TakeReads(m: Memory, b: nat, c: nat, o: Owner)
    requires b < BINS && ChunkRep(m, b, c, o) && OwnerOk(o, Blocks(b)) && o.free != [] && c >= CHUNK
    ensures PopReady(m, c)
    ensures m[m[c + FIRST_AT]] == 0 <==> |o.free| == 1
    ensures m[c + FIRST_AT] == BlockAt(b, c, o.free[0])
    ensures ChunkRep(Popped(m, c), b, c, o.(free := o.free[1..])) && OnlyIn(m, Popped(m, c), c, HEADER)
  {
    hide Blocks, BlockSize, ChunkRep;
    PopChunk(m, b, c, o);
    RepMapped(m, b, c, o);
    HeadInChunk(b, c, o);
  }

  lemma PreparedChunk(m: Memory, recs: map<nat, SuperRec>, pre: Pool, b: nat)
    requires Prepared(pre, b) && Rep(m, recs, pre)
    ensures CanTake(pre.bins[b])
    ensures var c := pre.bins[b].inUse[0];
      && c in pre.owner && pre.owner[c] == b && c >= CHUNK
      && ChunkRep(m, b, c, pre.bins[b].own[c]) && OwnerOk(pre.bins[b].own[c], Blocks(b))
  {
    hide Blocks, BlockSize, ChunkRep, Conserved, Supers, LevelInv, Ready, AllButBin, Shape, SuperRep, RegionRep,
        PoolInv, Prepared;
    PreparedOwners(pre, b);
    ChunkPositive(pre, pre.bins[b].inUse[0]);
  }

  lemma TakeLists(lev: Level)
    requires CanTake(lev)
    ensures var k := lev.inUse[0];
      ListsOf(Take(lev).level) == if |lev.own[k].free| == 1 then Shift(ListsOf(lev), k, ToFull) else ListsOf(lev)
  {
  }

  lemma HeadInChunk(b: nat, c: nat, o: Owner)
    requires b < BINS && OwnerOk(o, Blocks(b)) && o.free != []
    ensures c + HEADER <= BlockAt(b, c, o.free[0]) < c + CHUNK
  {
    hide Blocks, BlockSize;
    assert o.free[0] in o.free;
    BlockInChunk(b, c, o.free[0]);
  }

  lemma TakeWrites(m: Memory, recs: map<nat, SuperRec>, pre: Pool, b: nat, c: nat)
    requires Prepared(pre, b) && Rep(m, recs, pre)
    requires CanTake(pre.bins[b]) && c == pre.bins[b].inUse[0] && PopReady(m, c)
    ensures PoolInv(pre.(bins := pre.bins[b := Take(pre.bins[b]).level]))
    ensures Rep(Popped(m, c), recs, pre.(bins := pre.bins[b := Take(pre.bins[b]).level]))
  {
    hide Blocks, BlockSize, ChunkRep, LevelInv, Ready, AllButBin, SuperRep, RegionRep, PoolInv, Popped, Take,
        PopReady, Prepared;
    PreparedOwners(pre, b);
    PreparedChunk(m, recs, pre, b);
    TakeReads(m, b, c, pre.bins[b].own[c]);
    PreparedBin(pre, b);
    TakeBlockInv(pre, b, pre.bins[b]);
    ChunkWriteFrame(m, Popped(m, c), recs, pre, c);
    TakenRep(Popped(m, c), recs, pre, pre.(bins := pre.bins[b := Take(pre.bins[b]).level]), b, c);
  }

  lemma PreparedBin(pre: Pool, b: nat)
    requires Prepared(pre, b)
    ensures b < BINS == |pre.bins| && AllButBin(pre, b, pre.bins[b]) && Ready(pre.bins[b], Blocks(b), Blocks(b) / 4)
  {
    hide AllButBin, Ready, Blocks;
  }

  lemma ChunkPositive(pre: Pool, c: nat)
    requires Separate(pre) && c in pre.owner
    ensures c >= CHUNK && c % CHUNK == 0
  {
    hide LevelInv;
    var k, i: nat :| IsSlot(pre.sup, k, i, c);
  }

  lemma TakenRep(w: Memory, recs: map<nat, SuperRec>, pre: Pool, post: Pool, b: nat, c: nat)
    requires b < BINS == |pre.bins| && OwnersKnown(pre) && c in pre.owner && pre.owner[c] == b
    requires CanTake(pre.bins[b]) && c == pre.bins[b].inUse[0]
    requires post == pre.(bins := pre.bins[b := Take(pre.bins[b]).level])
    requires SuperRep(w, recs, pre.sup) && OthersRep(w, pre, c)
    requires var o := pre.bins[b].own[c]; ChunkRep(w, b, c, o.(free := o.free[1..]))
    ensures Rep(w, recs, post)
  {
    hide ChunkRep, SuperRep, RegionRep, Without;
  }

  /** The header of a new chunk: all zero but the fields given here. */
  function WithHeader(m: Memory, c: nat, count: nat, owner: nat): Memory {
    m[c + LAST_AT := 0][c + COUNT_AT := count][c := TagOf(c)][c + OWNER_AT := owner][c + FIRST_AT := c + HEADER]
  }

  ghost predicate AllBelow(start: nat, stride: nat, count: nat, limit: nat) {
    forall i: nat :: i < count ==> At(start, stride, i) < limit
  }

  lemma BlocksInside(b: nat, c: nat)
    requires b < BINS
    ensures Blocks(b) > 0
    ensures AllBelow(c + HEADER, BlockSize(b), Blocks(b), c + CHUNK)
  {
    hide Blocks, BlockSize, At;
    BlocksFit(b);
    var start, stride := c + HEADER, BlockSize(b);
    forall i: nat | i < Blocks(b) ensures At(start, stride, i) < c + CHUNK {
      BlockInChunk(b, c, i);
    }
    assert AllBelow(start, stride, Blocks(b), c + CHUNK);
  }

  lemma HeadedRep(m: Memory, h: Memory, w: Memory, b: nat, c: nat)
    requires b < BINS && Mapped(m, c, CHUNK)
    requires h == WithHeader(m, c, Blocks(b), BinObject(b))
    requires OnlyIn(h, w, c + HEADER, CHUNK - HEADER)
    requires Threaded(w, c + HEADER, c + HEADER, BlockSize(b), Count(Blocks(b)))
    ensures ChunkRep(w, b, c, Owner(Count(Blocks(b)), 0)) && OnlyIn(m, w, c, CHUNK)
  {
    hide Threaded, Count, TagOf, BinObject, Blocks, BlockSize;
  }

  lemma SuperAllocSteps(pre: Pool, base: Option<nat>)
    requires PoolInv(pre) && (base.Some? ==> FreshFor(pre, base.value, SUPERCHUNK))
    ensures var rdy := SuperReady(pre.sup, base);
      && (pre.sup.inUse == [] && pre.sup.freeL == [] && base.None? ==>
            PoolModel.SuperAlloc(pre.sup, base) == (pre.sup, None))
      && (pre.sup.inUse != [] || pre.sup.freeL != [] || base.Some? ==>
            && SuperReadyPool(pre.(sup := rdy)) && CanTake(rdy)
            && PoolModel.SuperAlloc(pre.sup, base) == (Take(rdy).level, Some(SlotAt(Take(rdy).owner, Take(rdy).block))))
    ensures base.Some? ==> base.value !in pre.sup.own && base.value >= CHUNK
    ensures pre.sup.freeL != [] ==> pre.sup.freeL[0] in pre.sup.own
  {
    hide LevelInv, Conserved, Live, Ready, Take, Count;
    FreshSuperOf(pre, base);
    FreeListDistinct(pre.sup, SLOTS, 0);
    SuperReadyKeeps(pre.sup, base, pre.owner);
    var rdy := SuperReady(pre.sup, base);
    assert base.None? || base.value !in pre.sup.own || Apart(base.value, SUPERCHUNK, base.value, SUPERCHUNK);
    if pre.sup.inUse != [] || pre.sup.freeL != [] || base.Some? {
      TakeKeeps(rdy, SLOTS, 0);
      ReadyRegions(pre, rdy, base);
    }
  }

  lemma ReadyRegions(pre: Pool, rdy: Level, base: Option<nat>)
    requires PoolInv(pre) && (base.Some? ==> FreshFor(pre, base.value, SUPERCHUNK))
    requires Supers(rdy) && forall k :: k in rdy.own ==> k in pre.sup.own || base == Some(k)
    ensures Regions(pre.(sup := rdy))
  {
    hide LevelInv, Conserved;
    forall d, k | d in pre.direct && k in rdy.own ensures Apart(d, pre.direct[d], k, SUPERCHUNK) {
      assert k in pre.sup.own || base == Some(k);
    }
  }

  lemma RecycleRep(m: Memory, recs: map<nat, SuperRec>, sups: Level, k: nat)
    requires SuperRep(m, recs, sups)
    ensures SuperRep(m, recs, Move(sups, k, ToInUse))
  {
    hide RecRep;
  }

  lemma AddOwnerLists(sups: Level, k: nat)
    ensures ListsOf(AddOwner(sups, k, SLOTS)) == Lists(sups.freeL, [k] + sups.inUse, sups.full)
  {
  }

  lemma NewRecRep(m: Memory, w: Memory, recs: map<nat, SuperRec>, more: map<nat, SuperRec>, sups: Level, k: nat)
    requires SuperRep(m, recs, sups) && k !in sups.own && k in more && more == recs[k := more[k]]
    requires forall a :: a in m ==> a in w && w[a] == m[a]
    requires RecRep(w, more[k], k, Owner(Count(SLOTS), 0))
    ensures SuperRep(w, more, AddOwner(sups, k, SLOTS))
  {
    hide RecRep, Count;
    forall x | x in sups.own ensures RecRep(w, more[x], x, sups.own[x]) {
      RecGrow(m, w, recs[x], x, sups.own[x]);
    }
  }

  lemma RecGrow(m: Memory, w: Memory, r: SuperRec, k: nat, o: Owner)
    requires RecRep(m, r, k, o) && forall a :: a in m ==> a in w && w[a] == m[a]
    ensures RecRep(w, r, k, o)
  {
    hide At, Link;
  }

  lemma ChunkGrow(m: Memory, w: Memory, b: nat, c: nat, o: Owner)
    requires ChunkRep(m, b, c, o) && forall a :: a in m ==> a in w && w[a] == m[a]
    ensures ChunkRep(w, b, c, o)
  {
    hide At, Link, BlockSize, TagOf, BinObject;
  }

  /** Memory that only grew still represents the bins and the direct regions. */
  lemma GrownRep(m: Memory, w: Memory, recs: map<nat, SuperRec>, more: map<nat, SuperRec>, pre: Pool, post: Pool)
    requires Rep(m, recs, pre) && post == pre.(sup := post.sup)
    requires forall a :: a in m ==> a in w && w[a] == m[a]
    requires SuperRep(w, more, post.sup)
    ensures Rep(w, more, post)
  {
    hide ChunkRep, RecRep, TagOf;
    forall c | c in pre.owner ensures ChunkRep(w, pre.owner[c], c, pre.bins[pre.owner[c]].own[c]) {
      ChunkGrow(m, w, pre.owner[c], c, pre.bins[pre.owner[c]].own[c]);
    }
  }

  lemma RecsKnown(m: Memory, recs: map<nat, SuperRec>, sups: Level)
    requires SuperRep(m, recs, sups)
    ensures recs.Keys == sups.own.Keys
  {
  }
}
