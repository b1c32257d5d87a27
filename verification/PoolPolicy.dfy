/** Which memory the pool uses, and which it gives back.

The safety of the pool does not depend on these choices, but its behaviour does: a released block
is used again first, a chunk is put back into service when more than a quarter of it is free, and
memory that nobody uses leaves after a time. Everything here is about numbers and lists before and
after an operation.
*/
module PoolPolicy {
  import opened Bits
  import opened Options
  import opened PoolModel
  import opened PoolSafety
  import opened SlabLevel

  // --- What leaves in a trim

  /** Last used at `last`, still wanted at `time`: its age is below the maximum. A time before the
      last use is a clock that wrapped around, and ends the wait. */
  predicate Young(last: nat, time: nat, maxAge: nat) {
    last <= time < last + maxAge
  }

  lemma AgedMeans(last: nat, time: nat, maxAge: nat)
    ensures Aged(last, time, maxAge) <==> !(last <= time < last + maxAge)
  {
  }

  /** The Trim of a bin, chunk by chunk. */
  ghost predicate Trimmed(lev: Level, upd: Level, gone: seq<nat>, time: nat, maxAge: nat) {
    && upd.inUse == lev.inUse && upd.full == lev.full
    && (forall x :: x in upd.own <==> x in lev.own && !(x in gone && !Young(lev.own[x].last, time, maxAge)))
    && (forall x :: x in upd.own ==> upd.own[x] == lev.own[x])
    && (lev.freeL != [] && lev.freeL[0] in upd.own ==> upd.freeL != [] && upd.freeL[0] == lev.freeL[0])
    && (lev.freeL == [] ==> upd.freeL == [])
  }

  lemma {:induction false} TrimBinTrims(pre: Pool, b: nat, s: seq<nat>, n: nat, time: nat, e: Env, j: nat)
    requires b < |pre.bins| && n <= |s|
    ensures var post := TrimBin(pre, b, s, n, time, e, j);
      && |post.bins| == |pre.bins| && (forall a :: 0 <= a < |pre.bins| && a != b ==> post.bins[a] == pre.bins[a])
      && post.counter == pre.counter && post.direct == pre.direct
      && Trimmed(pre.bins[b], post.bins[b], s[..n], time, e.maxAge)
    decreases n
  {
    hide SuperFree;
    if n > 0 {
      var c := s[n - 1];
      assert forall x :: x in s[..n] <==> x == c || x in s[..n - 1];
      if c in pre.bins[b].own {
        AgedMeans(pre.bins[b].own[c].last, time, e.maxAge);
      }
      if c in pre.bins[b].own && Aged(pre.bins[b].own[c].last, time, e.maxAge) {
        var mid := ReleaseChunk(pre, b, c, Tick(e, j), e.maxAge);
        TrimBinTrims(mid, b, s, n - 1, time, e, j + 1);
        HeadStays(pre.bins[b].freeL, c);
      } else {
        TrimBinTrims(pre, b, s, n - 1, time, e, j);
      }
    }
  }

  lemma HeadStays(s: seq<nat>, x: nat)
    ensures s != [] && s[0] != x ==> Without(s, x) != [] && Without(s, x)[0] == s[0]
  {
  }

  lemma {:induction false} TrimTrims(lev: Level, s: seq<nat>, n: nat, time: nat, maxAge: nat)
    requires n <= |s|
    ensures Trimmed(lev, Trim(lev, s, n, time, maxAge), s[..n], time, maxAge)
    decreases n
  {
    if n > 0 {
      var k := s[n - 1];
      assert forall x :: x in s[..n] <==> x == k || x in s[..n - 1];
      if k in lev.own {
        AgedMeans(lev.own[k].last, time, maxAge);
      }
      if k in lev.own && Aged(lev.own[k].last, time, maxAge) {
        TrimTrims(DropOwner(lev, k), s, n - 1, time, maxAge);
        HeadStays(lev.freeL, k);
      } else {
        TrimTrims(lev, s, n - 1, time, maxAge);
      }
    }
  }

  // --- Where a container goes when a block comes back

  lemma GiveMoves(lev: Level, k: nat, i: nat, total: nat, cap: nat, promote: bool, tick: nat)
    requires LevelInv(lev, total, cap) && Live(lev, k, i, total)
    ensures var upd, n := Give(lev, k, i, total, promote, tick), |lev.own[k].free| + 1;
      && n <= total && k !in lev.freeL
      && upd.own == lev.own[k := Owner([i] + lev.own[k].free, tick)]
      && (n == total ==>
            upd.freeL == [k] + lev.freeL && upd.inUse == Without(lev.inUse, k) && upd.full == Without(lev.full, k))
      && (n < total ==> upd.freeL == lev.freeL)
      && (n < total && promote ==> upd.inUse == [k] + Without(lev.inUse, k) && upd.full == Without(lev.full, k))
      && (n < total && !promote ==> upd.inUse == lev.inUse && upd.full == lev.full)
  {
    hide LevelInv, Live, Without, OwnerOk, Placed, Shape;
    LiveOwned(lev, k, i, total);
    PushKeeps(lev, k, i, total, cap);
    NotFree(lev, k, i, total, cap);
  }

  lemma NotFree(lev: Level, k: nat, i: nat, total: nat, cap: nat)
    requires LevelInv(lev, total, cap) && Live(lev, k, i, total)
    ensures k !in lev.freeL
  {
    Pigeonhole(lev.own[k].free, total);
    assert Placed(lev, k, total, cap);
  }

  // --- Free

  /** The chunks a bin has after a Free of a block of chunk c that leaves n of the chunk's blocks
      free. Only a Free whose counter reaches the check frequency lets any go: those without a block in
      use that were last used maxAge ago or longer. */
  ghost predicate ChunksAfterFree(pre: Pool, post: Pool, b: nat, c: nat, n: nat, e: Env)
    requires b < |pre.bins| == |pre.counter| && b < |post.bins| == |post.counter|
  {
    var lev, upd, time := pre.bins[b], post.bins[b], Tick(e, 0);
    && upd.own.Keys <= lev.own.Keys
    && (pre.counter[b] + 1 < e.checkFreq ==>
          && upd.own.Keys == lev.own.Keys && post.sup == pre.sup && post.owner == pre.owner
          && post.counter == pre.counter[b := pre.counter[b] + 1])
    && (pre.counter[b] + 1 >= e.checkFreq ==>
          && post.counter == pre.counter[b := 0]
          && (forall x :: x in lev.freeL && x in lev.own ==>
                (x in upd.own <==> lev.own[x].last <= time < lev.own[x].last + e.maxAge))
          && (forall x :: x in lev.own && x !in lev.freeL && x != c ==> x in upd.own)
          && (c in upd.own <==> n < Blocks(b) || e.maxAge > 0))
    && (c in upd.own ==> upd.own[c].last == time)
    && (forall x :: x in upd.own && x != c ==> upd.own[x] == lev.own[x])
  }

  /** The lists of the bin: a chunk that is free as a whole goes to the front of the free list, one with
      more than a quarter of its blocks free to the front of the chunks in use, and any other stays. */
  ghost predicate ListsAfterFree(lev: Level, upd: Level, b: nat, c: nat, i: nat)
    requires c in lev.own
  {
    var n := |lev.own[c].free| + 1;
    && (c in upd.own ==> upd.own[c].free == [i] + lev.own[c].free)
    && (n == Blocks(b) ==> upd.inUse == Without(lev.inUse, c) && upd.full == Without(lev.full, c))
    && (n == Blocks(b) && c in upd.own ==> upd.freeL != [] && upd.freeL[0] == c)
    && (Blocks(b) / 4 < n < Blocks(b) ==>
          upd.inUse == [c] + Without(lev.inUse, c) && upd.full == Without(lev.full, c))
    && (n <= Blocks(b) / 4 ==> upd.inUse == lev.inUse && upd.full == lev.full)
    && (n < Blocks(b) && lev.freeL != [] && lev.freeL[0] in upd.own ==>
          upd.freeL != [] && upd.freeL[0] == lev.freeL[0])
    && (n < Blocks(b) && lev.freeL == [] ==> upd.freeL == [])
  }

  lemma SmallFreeEffect(pre: Pool, b: nat, c: nat, i: nat, e: Env)
    requires |pre.bins| == |pre.counter| && b < |pre.bins| && Blocks(b) >= 3
    requires LevelInv(pre.bins[b], Blocks(b), Blocks(b) / 4) && Live(pre.bins[b], c, i, Blocks(b))
    ensures var post := SmallFree(pre, b, c, i, e);
      && |post.bins| == |post.counter| == |pre.bins|
      && (forall a :: 0 <= a < |pre.bins| && a != b ==> post.bins[a] == pre.bins[a])
      && ChunksAfterFree(pre, post, b, c, |pre.bins[b].own[c].free| + 1, e)
      && ListsAfterFree(pre.bins[b], post.bins[b], b, c, i)
  {
    hide Blocks, Give, Trimmed, LevelInv, Without;
    var lev, time, n := pre.bins[b], Tick(e, 0), |pre.bins[b].own[c].free| + 1;
    GiveMoves(lev, c, i, Blocks(b), Blocks(b) / 4, n > Blocks(b) / 4, time);
    var upd := Give(lev, c, i, Blocks(b), n > Blocks(b) / 4, time);
    if pre.counter[b] + 1 >= e.checkFreq {
      var mid := pre.(bins := pre.bins[b := upd], counter := pre.counter[b := 0]);
      TrimBinTrims(mid, b, upd.freeL, |upd.freeL|, time, e, 1);
      assert upd.freeL[..|upd.freeL|] == upd.freeL;
      TrimmedChunks(lev, upd, SmallFree(pre, b, c, i, e).bins[b], c, n, Blocks(b), time, e.maxAge);
    }
  }

  lemma TrimmedChunks(lev: Level, upd: Level, last: Level, c: nat, n: nat, total: nat, time: nat, maxAge: nat)
    requires Trimmed(upd, last, upd.freeL, time, maxAge) && c in lev.own && c !in lev.freeL
    requires upd.own.Keys == lev.own.Keys && upd.own[c].last == time
    requires forall x :: x in lev.own && x != c ==> upd.own[x] == lev.own[x]
    requires upd.freeL == if n == total then [c] + lev.freeL else lev.freeL
    requires n <= total
    ensures last.inUse == upd.inUse && last.full == upd.full && last.own.Keys <= lev.own.Keys
    ensures forall x :: x in lev.freeL && x in lev.own ==>
      (x in last.own <==> lev.own[x].last <= time < lev.own[x].last + maxAge)
    ensures forall x :: x in lev.own && x !in lev.freeL && x != c ==> x in last.own
    ensures c in last.own <==> n < total || maxAge > 0
    ensures forall x :: x in last.own ==> last.own[x] == upd.own[x]
    ensures upd.freeL != [] && upd.freeL[0] in last.own ==> last.freeL != [] && last.freeL[0] == upd.freeL[0]
    ensures upd.freeL == [] ==> last.freeL == []
  {
    assert forall x :: x in upd.freeL <==> x in lev.freeL || (n == total && x == c);
  }

  lemma FreeIsSmallFree(pre: Pool, p: nat, e: Env) returns (b: nat, c: nat, i: nat)
    requires PoolInv(pre) && LiveSmall(pre, p)
    ensures |pre.bins| == |pre.counter| == BINS && p != 0
    ensures c == HeaderOf(p) && c in pre.owner && b == pre.owner[c] && b < BINS
    ensures p == BlockAt(b, c, i) && Live(pre.bins[b], c, i, Blocks(b))
    ensures c in pre.bins[b].own && Free(pre, p, e) == SmallFree(pre, b, c, i, e)
    ensures LevelInv(pre.bins[b], Blocks(b), Blocks(b) / 4) && Blocks(b) >= 3
  {
    hide LevelInv, Conserved, Regions, SmallFree, LiveSmall, BlockSize, Blocks;
    b, c, i := LiveSmallIsBlock(pre, p);
    LiveOwned(pre.bins[b], c, i, Blocks(b));
    BlocksFit(b);
  }

  /** Free of a block of a bin: what becomes of the bin's chunks and their lists. Nothing happens in
      the other bins. */
  lemma FreeEffect(pre: Pool, p: nat, e: Env)
    requires PoolInv(pre) && LiveSmall(pre, p)
    ensures HeaderOf(p) in pre.owner && pre.owner[HeaderOf(p)] < BINS == |pre.bins| == |pre.counter|
    ensures var post, c := Free(pre, p, e), HeaderOf(p); var b := pre.owner[c];
      && |post.bins| == |post.counter| == BINS && c in pre.bins[b].own
      && (forall a :: 0 <= a < BINS && a != b ==> post.bins[a] == pre.bins[a])
      && ChunksAfterFree(pre, post, b, c, |pre.bins[b].own[c].free| + 1, e)
      && exists i: nat :: p == BlockAt(b, c, i) && ListsAfterFree(pre.bins[b], post.bins[b], b, c, i)
  {
    hide PoolInv, LiveSmall, LevelInv, Live, Free, SmallFree, ChunksAfterFree, ListsAfterFree, BlockAt, Blocks;
    var b, c, i := FreeIsSmallFree(pre, p, e);
    SmallFreeEffect(pre, b, c, i, e);
  }

  // --- The superchunks

  /** A slot of superchunk k comes back and leaves n of its slots free. Every such return trims. */
  ghost predicate SupersAfterFree(sups: Level, upd: Level, k: nat, i: nat, tick: nat, maxAge: nat)
    requires k in sups.own
  {
    var n := |sups.own[k].free| + 1;
    && upd.own.Keys <= sups.own.Keys
    && (forall x :: x in sups.freeL && x in sups.own ==>
          (x in upd.own <==> sups.own[x].last <= tick < sups.own[x].last + maxAge))
    && (forall x :: x in sups.own && x !in sups.freeL && x != k ==> x in upd.own)
    && (k in upd.own <==> n < SLOTS || maxAge > 0)
    && (k in upd.own ==> upd.own[k] == Owner([i] + sups.own[k].free, tick))
    && (forall x :: x in upd.own && x != k ==> upd.own[x] == sups.own[x])
    && (n == SLOTS ==> upd.inUse == Without(sups.inUse, k) && upd.full == Without(sups.full, k))
    && (n == SLOTS && k in upd.own ==> upd.freeL != [] && upd.freeL[0] == k)
    && (n < SLOTS && k in sups.inUse ==> upd.inUse == sups.inUse && upd.full == sups.full)
    && (n < SLOTS && k in sups.full ==> upd.inUse == [k] + sups.inUse && upd.full == Without(sups.full, k))
  }

  lemma SuperFreeEffect(sups: Level, owner: map<nat, nat>, c: nat, tick: nat, maxAge: nat) returns (k: nat, i: nat)
    requires SuperOk(sups, owner) && c in owner
    ensures IsSlot(sups, k, i, c) && SupersAfterFree(sups, SuperFree(sups, c, tick, maxAge), k, i, tick, maxAge)
  {
    hide Conserved, Supers, Give, Trim, Trimmed, Find, Live, IsSlot, Without;
    k, i := FindOwner(sups, owner, c);
    SlotFacts(sups, k, i, c);
    FindCorrect(sups.inUse, c);
    GiveMoves(sups, k, i, SLOTS, 0, Find(sups.inUse, c).None?, tick);
    var upd := Give(sups, k, i, SLOTS, Find(sups.inUse, c).None?, tick);
    TrimTrims(upd, upd.freeL, |upd.freeL|, tick, maxAge);
    assert upd.freeL[..|upd.freeL|] == upd.freeL;
    var last := Trim(upd, upd.freeL, |upd.freeL|, tick, maxAge);
    TrimmedChunks(sups, upd, last, k, |sups.own[k].free| + 1, SLOTS, tick, maxAge);
    assert last == SuperFree(sups, c, tick, maxAge);
  }

  lemma SlotFacts(sups: Level, k: nat, i: nat, c: nat)
    requires IsSlot(sups, k, i, c) && Live(sups, k, i, SLOTS)
    ensures k in sups.own && i < SLOTS && c >= k
  {
  }

  // --- What is used again

  /** The next block a bin hands out when it has a chunk to take it from. */
  lemma NextBlock(lev: Level, pre: Pool, b: nat, base: Option<nat>)
    requires b < |pre.bins| && lev == pre.bins[b] && LevelInv(lev, Blocks(b), Blocks(b) / 4) && Blocks(b) >= 3
    requires lev.inUse != [] || lev.freeL != []
    ensures var c := if lev.inUse != [] then lev.inUse[0] else lev.freeL[0];
      && c in lev.own && lev.own[c].free != []
      && SmallAlloc(pre, b, base).1 == Some(BlockAt(b, c, lev.own[c].free[0]))
  {
    hide Blocks, BlockAt;
    if lev.inUse != [] {
      InUseReady(lev, Blocks(b), Blocks(b) / 4);
    } else {
      RecycleReady(lev, Blocks(b), Blocks(b) / 4);
    }
  }

  /** The chunk that is asked first. */
  function FirstAsked(lev: Level): Option<nat> {
    if lev.inUse != [] then Some(lev.inUse[0]) else if lev.freeL != [] then Some(lev.freeL[0]) else None
  }

  /** A block that was just released is the next one its bin hands out if and only if its chunk is now
      asked first: a chunk with more than a quarter of its blocks free, unless it is free as a whole
      and others are in use, and of those with fewer the one that was asked first before. That the
      chunk was not trimmed away is in the hypothesis; ChunksAfterFree says when. */
  lemma ReusedIff(pre: Pool, b: nat, c: nat, i: nat, e: Env, base: Option<nat>)
    requires PoolInv(pre) && b < BINS && c in pre.owner && pre.owner[c] == b && Live(pre.bins[b], c, i, Blocks(b))
    ensures |pre.bins| == |pre.counter| == BINS && c in pre.bins[b].own
    ensures |SmallFree(pre, b, c, i, e).bins| == BINS
    ensures var post, lev := SmallFree(pre, b, c, i, e), pre.bins[b]; var n := |lev.own[c].free| + 1;
      c in post.bins[b].own && (base.Some? ==> FreshFor(post, base.value, SUPERCHUNK)) ==>
        (SmallAlloc(post, b, base).1 == Some(BlockAt(b, c, i)) <==>
          || Blocks(b) / 4 < n < Blocks(b)
          || (n == Blocks(b) && forall x :: x in lev.inUse ==> x == c)
          || (n <= Blocks(b) / 4 && lev.inUse != [] && lev.inUse[0] == c))
  {
    hide PoolInv, LevelInv, Live, SmallFree, ChunksAfterFree, ListsAfterFree, BlockAt, Blocks, SmallAlloc, FreshFor;
    PoolSized(pre);
    LiveOwned(pre.bins[b], c, i, Blocks(b));
    BlocksFit(b);
    BinInvariant(pre, b);
    SmallFreeEffect(pre, b, c, i, e);
    SmallFreeKeeps(pre, b, c, i, e);
    var post := SmallFree(pre, b, c, i, e);
    if c in post.bins[b].own && (base.Some? ==> FreshFor(post, base.value, SUPERCHUNK)) {
      BinInvariant(post, b);
      AskedFirstIff(pre.bins[b], post.bins[b], b, c, i);
      HandsOutIff(post, b, c, i, base);
    }
  }

  lemma PoolSized(pre: Pool)
    requires PoolInv(pre)
    ensures |pre.bins| == |pre.counter| == BINS
  {
    hide LevelInv, Conserved, Regions;
  }

  lemma AskedFirstIff(lev: Level, upd: Level, b: nat, c: nat, i: nat)
    requires Blocks(b) >= 3 && LevelInv(lev, Blocks(b), Blocks(b) / 4) && LevelInv(upd, Blocks(b), Blocks(b) / 4)
    requires Live(lev, c, i, Blocks(b)) && ListsAfterFree(lev, upd, b, c, i) && c in upd.own
    ensures var n := |lev.own[c].free| + 1;
      FirstAsked(upd) == Some(c) <==>
        || Blocks(b) / 4 < n < Blocks(b)
        || (n == Blocks(b) && forall x :: x in lev.inUse ==> x == c)
        || (n <= Blocks(b) / 4 && lev.inUse != [] && lev.inUse[0] == c)
    ensures upd.own[c].free == [i] + lev.own[c].free
  {
    hide Blocks, Without;
    var total, n := Blocks(b), |lev.own[c].free| + 1;
    PushKeeps(lev, c, i, total, total / 4);
    assert Placed(upd, c, total, total / 4);
    if n == total {
      if upd.inUse == [] {
        assert forall x :: x in lev.inUse ==> x == c;
      } else {
        assert upd.inUse[0] in upd.inUse;
      }
    } else if n <= total / 4 && upd.inUse == [] && upd.freeL != [] {
      assert upd.freeL[0] in upd.freeL;
    }
  }

  /** Block i of chunk c is what the bin hands out next exactly if c is asked first and i is on top of
      its free blocks. */
  lemma HandsOutIff(post: Pool, b: nat, c: nat, i: nat, base: Option<nat>)
    requires PoolInv(post) && b < BINS == |post.bins| && (base.Some? ==> FreshFor(post, base.value, SUPERCHUNK))
    requires c in post.bins[b].own && post.bins[b].own[c].free != [] && post.bins[b].own[c].free[0] == i
    ensures SmallAlloc(post, b, base).1 == Some(BlockAt(b, c, i)) <==> FirstAsked(post.bins[b]) == Some(c)
  {
    hide PoolInv, BlockAt, Blocks, SmallAlloc, FreshFor, LevelInv;
    BinInvariant(post, b);
    BlocksFit(b);
    var lev := post.bins[b];
    if lev.inUse != [] || lev.freeL != [] {
      NextBlock(lev, post, b, base);
      var x := FirstAsked(lev).value;
      BlocksDiffer(post, b, x, lev.own[x].free[0], c, i);
    } else {
      NewBlock(post, b, base);
      if SmallAlloc(post, b, base).1.Some? {
        var x := NewChunkOf(post, b, base);
        FreeBlockOf(post, b, c, i);
        OwnedIsAligned(post, c);
        BlockDecode(b, c, i);
        BlockDecode(b, x, 0);
      }
    }
  }

  lemma FreeBlockOf(post: Pool, b: nat, c: nat, i: nat)
    requires PoolInv(post) && b < BINS == |post.bins| && c in post.bins[b].own && i in post.bins[b].own[c].free
    ensures c in post.owner && i < Blocks(b)
  {
    hide Conserved, Regions, Blocks;
    assert OwnerOk(post.bins[b].own[c], Blocks(b));
  }

  lemma BlocksDiffer(post: Pool, b: nat, x: nat, j: nat, c: nat, i: nat)
    requires PoolInv(post) && b < BINS == |post.bins| && x in post.bins[b].own && c in post.bins[b].own
    requires j in post.bins[b].own[x].free && i in post.bins[b].own[c].free
    ensures BlockAt(b, x, j) == BlockAt(b, c, i) ==> x == c
  {
    hide PoolInv, BlockAt, Blocks;
    FreeBlockOf(post, b, x, j);
    FreeBlockOf(post, b, c, i);
    OwnedIsAligned(post, x);
    OwnedIsAligned(post, c);
    BlockDecode(b, x, j);
    BlockDecode(b, c, i);
  }

  /** With no chunk left the bin gets a new one, of which it hands out the first block. */
  lemma NewBlock(post: Pool, b: nat, base: Option<nat>)
    requires PoolInv(post) && b < BINS == |post.bins| && (base.Some? ==> FreshFor(post, base.value, SUPERCHUNK))
    requires post.bins[b].inUse == [] && post.bins[b].freeL == []
    ensures var (sups, slot) := SuperAlloc(post.sup, base);
      && (slot.None? ==> SmallAlloc(post, b, base).1.None?)
      && (slot.Some? ==>
            && slot.value !in post.owner && slot.value % CHUNK == 0
            && SmallAlloc(post, b, base).1 == Some(BlockAt(b, slot.value, 0)))
  {
    hide PoolInv, BlockAt, Blocks, FreshFor, SuperAlloc, LevelInv, Conserved;
    FreshSuperOf(post, base);
    SuperAllocKeeps(post.sup, base, post.owner, b);
    BlocksFit(b);
    var (sups, slot) := SuperAlloc(post.sup, base);
    if slot.Some? {
      BinInvariant(post, b);
      AddReady(post.bins[b], slot.value, Blocks(b), Blocks(b) / 4);
      assert Count(Blocks(b))[0] == 0;
    }
  }

  lemma NewChunkOf(post: Pool, b: nat, base: Option<nat>) returns (x: nat)
    requires PoolInv(post) && b < BINS == |post.bins| && (base.Some? ==> FreshFor(post, base.value, SUPERCHUNK))
    requires post.bins[b].inUse == [] && post.bins[b].freeL == [] && SmallAlloc(post, b, base).1.Some?
    ensures x !in post.owner && x % CHUNK == 0 && SmallAlloc(post, b, base).1 == Some(BlockAt(b, x, 0))
  {
    hide PoolInv, BlockAt, Blocks, FreshFor, SuperAlloc, SmallAlloc;
    NewBlock(post, b, base);
    x := SuperAlloc(post.sup, base).1.value;
  }

  /** A chunk fresh from the superchunk manager is handed out from its first block to its last: the next
      k allocations of the bin are the next k blocks. */
  function Allocations(pre: Pool, b: nat, k: nat): (r: seq<Option<nat>>)
    requires b < |pre.bins|
    ensures |r| == k
    decreases k
  {
    if k == 0 then [] else
      var (post, p) := SmallAlloc(pre, b, None);
      SmallAllocBins(pre, b, None);
      [p] + Allocations(post, b, k - 1)
  }

  lemma SmallAllocBins(pre: Pool, b: nat, base: Option<nat>)
    requires b < |pre.bins|
    ensures |SmallAlloc(pre, b, base).0.bins| == |pre.bins|
  {
    hide Take, Move, SuperAlloc, AddOwner, Blocks;
  }

  lemma {:induction false} BlocksInOrder(pre: Pool, b: nat, c: nat, j: nat, k: nat, m: nat)
    requires b < |pre.bins| && pre.bins[b].inUse != [] && pre.bins[b].inUse[0] == c && c in pre.bins[b].own
    requires m < k && j + k <= Blocks(b) && pre.bins[b].own[c].free == Count(Blocks(b))[j..]
    ensures Allocations(pre, b, k)[m] == Some(c + HEADER + (j + m) * BlockSize(b))
    decreases m
  {
    hide Blocks, Move, BlockSize, Allocations;
    AllocationsStep(pre, b, k);
    var (post, p) := SmallAlloc(pre, b, None);
    assert p == Some(BlockAt(b, c, j)) && pre.bins[b].own[c].free[1..] == Count(Blocks(b))[j + 1..];
    if m > 0 {
      BlocksInOrder(post, b, c, j + 1, k - 1, m - 1);
    }
  }

  lemma AllocationsStep(pre: Pool, b: nat, k: nat)
    requires b < |pre.bins| && k > 0
    ensures |SmallAlloc(pre, b, None).0.bins| == |pre.bins|
    ensures Allocations(pre, b, k) ==
      [SmallAlloc(pre, b, None).1] + Allocations(SmallAlloc(pre, b, None).0, b, k - 1)
  {
    SmallAllocBins(pre, b, None);
  }

  /** The superchunk manager hands out the slot on top of the superchunk that is asked first, and of a
      new superchunk the first. */
  lemma NextSlot(sups: Level, base: Option<nat>, owner: map<nat, nat>)
    requires SuperOk(sups, owner)
    ensures var k := FirstAsked(sups);
      && (k.Some? ==>
            && k.value in sups.own && sups.own[k.value].free != []
            && SuperAlloc(sups, base).1 == Some(k.value + sups.own[k.value].free[0] * CHUNK))
      && (k.None? ==> SuperAlloc(sups, base).1 == base)
  {
    hide Conserved, Supers, Move;
    MoveOwn(sups);
    if sups.inUse != [] {
      InUseReady(sups, SLOTS, 0);
    } else if sups.freeL != [] {
      RecycleReady(sups, SLOTS, 0);
    } else {
      assert |Count(SLOTS)| == SLOTS && Count(SLOTS)[0] == 0;
    }
  }

  lemma MoveOwn(lev: Level)
    ensures lev.freeL != [] ==>
      var upd := Move(lev, lev.freeL[0], ToInUse);
      upd.own == lev.own && upd.inUse != [] && upd.inUse[0] == lev.freeL[0]
  {
  }

  // --- Malloc

  /** When Malloc fails: when the system gives no memory and the bin and the superchunks have none left,
      and for sizes that with the header are just 2^64. */
  lemma MallocFailsIff(pre: Pool, n: nat, e: Env)
    requires PoolInv(pre) && EnvOk(pre, n, e) && n < SIZE_LIMIT
    ensures |pre.bins| == BINS && (n <= 16384 ==> IndexFromSize(n) < BINS)
    ensures Malloc(pre, n, e).1.None? <==>
      if n <= 16384 then
        e.base.None? && FirstAsked(pre.bins[IndexFromSize(n)]).None? && FirstAsked(pre.sup).None?
      else e.base.None? || n + HEADER == SIZE_LIMIT
  {
    hide PoolInv, LevelInv, SmallAlloc, SuperAlloc, IndexFromSize, FreshFor, RegionSize;
    PoolSized(pre);
    IndexFromSizeIsBestFit(n);
    if n <= 16384 {
      SmallFailsIff(pre, IndexFromSize(n), e.base);
    } else {
      PagesOf(n);
    }
  }

  lemma SmallFailsIff(pre: Pool, b: nat, base: Option<nat>)
    requires PoolInv(pre) && b < BINS == |pre.bins| && (base.Some? ==> FreshFor(pre, base.value, SUPERCHUNK))
    ensures SmallAlloc(pre, b, base).1.None? <==>
      base.None? && FirstAsked(pre.bins[b]).None? && FirstAsked(pre.sup).None?
  {
    hide PoolInv, LevelInv, SmallAlloc, SuperAlloc, FreshFor, Blocks;
    BinInvariant(pre, b);
    BlocksFit(b);
    FreshSuperOf(pre, base);
    NextSlot(pre.sup, base, pre.owner);
    if pre.bins[b].inUse != [] || pre.bins[b].freeL != [] {
      NextBlock(pre.bins[b], pre, b, base);
    } else {
      NewBlock(pre, b, base);
    }
  }

  lemma PagesOf(n: nat)
    requires n < SIZE_LIMIT
    ensures RegionSize(n) == 0 <==> n + HEADER == SIZE_LIMIT
    ensures n + HEADER < SIZE_LIMIT ==>
      RegionSize(n) % PAGE == 0 && n + HEADER <= RegionSize(n) < n + HEADER + PAGE
  {
    var m := (n + HEADER) % SIZE_LIMIT;
    RoundUp(m);
    if n + HEADER >= SIZE_LIMIT {
      assert m == n + HEADER - SIZE_LIMIT;
    }
  }

  lemma RoundUp(m: nat)
    ensures var r := (m + PAGE - 1) / PAGE * PAGE; r % PAGE == 0 && m <= r < m + PAGE
  {
  }

  /** How large the block is that Malloc gives: the smallest power of two that is at least 8 and n, or
      for more than 16384 bytes the rest of the fewest pages that hold n bytes and a header. */
  lemma MallocSizeIs(pre: Pool, n: nat, e: Env)
    requires PoolInv(pre) && EnvOk(pre, n, e) && n + HEADER < SIZE_LIMIT && Malloc(pre, n, e).1.Some?
    ensures var (post, r) := Malloc(pre, n, e); var size := GetSize(post, r.value);
      && (n <= 16384 ==>
            && IsPowerOfTwo(size) && size >= n && size >= 8
            && forall x: nat :: x >= 3 && Pow2(x) >= n ==> size <= Pow2(x))
      && (n > 16384 ==> (size + HEADER) % PAGE == 0 && n <= size < n + PAGE)
  {
    hide PoolInv, EnvOk, RegionSize, BlockSize, IndexFromSize, Pow2, Malloc;
    MallocKeeps(pre, n, e);
    IndexFromSizeIsBestFit(n);
    PagesOf(n);
    if n <= 16384 {
      var b := IndexFromSize(n);
      BlockSizePow(b);
      forall x: nat | x >= 3 && Pow2(x) >= n ensures BlockSize(b) <= Pow2(x) {
        BlockSizePow(x - 3);
        if x - 3 >= b { PowSplit(b + 3, x); }
      }
    }
  }
}
